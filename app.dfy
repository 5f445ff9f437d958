/**
 * `App` of src/app.rs as an object whose methods update its fields in place.
 * Sending a task to the worker appends it to `outbox`. Every method is proved
 * to take the object from the state `Snapshot()` describes to the state the
 * matching function of AppModel gives, and to keep `AppModel.Inv`.
 */
module AppObject {
  import opened Wrappers
  import Nmcli
  import opened Events
  import opened AppModel

  class App {
    var running: bool
    var view: View
    var modal: Option<Modal>
    var bgStatus: BgStatus
    var networks: seq<Nmcli.Network>
    var saved: seq<Nmcli.SavedNetwork>
    var status: Nmcli.ConnectionStatus
    const device: string
    var netIndex: nat
    var savedIndex: nat
    var password: string
    var passwordVisible: bool
    var passwordTargetSsid: string
    var ticksSinceScan: nat
    var spinnerFrame: nat
    var outbox: seq<Task>

    /** The fields as one value. */
    function Snapshot(): State
      reads this
    {
      State(running, view, modal, bgStatus, networks, saved, status, device,
            netIndex, savedIndex, password, passwordVisible, passwordTargetSsid,
            ticksSinceScan, spinnerFrame, outbox)
    }

    predicate Valid()
      reads this
    {
      Inv(Snapshot())
    }

    /** `App::new`. */
    constructor (device: string)
      ensures Snapshot() == Initial(device)
      ensures Valid()
    {
      running := true;
      view := AvailableNetworks;
      modal := None;
      bgStatus := Idle;
      networks := [];
      saved := [];
      status := Nmcli.NotConnected;
      this.device := device;
      netIndex := 0;
      savedIndex := 0;
      password := [];
      passwordVisible := false;
      passwordTargetSsid := [];
      ticksSinceScan := AutoRefreshTicks;
      spinnerFrame := 0;
      outbox := [];
    }

    /** `EventLoop::send_task`, seen from the UI: the task joins the outbox. */
    method SendTask(task: Task)
      modifies this
      ensures Snapshot() == old(Snapshot()).(outbox := old(outbox) + [task])
    {
      outbox := outbox + [task];
    }

    /** `handle_key`. */
    method HandleKey(key: Key)
      requires Valid()
      modifies this
      ensures Snapshot() == OnKey(old(Snapshot()), key)
      ensures Valid()
    {
      KeyKeepsInv(Snapshot(), key);
      if key.ctrl && key.code == Char('c') {
        running := false;
        return;
      }
      if modal.Some? {
        HandleModalKey(key, modal.value);
        return;
      }
      if key.code == Char('q') || key.code == Char('Q') {
        running := false;
      } else if key.code == Tab || key.code == BackTab {
        view := match view
          case AvailableNetworks => SavedNetworks
          case SavedNetworks => AvailableNetworks;
      } else if key.code == Char('r') || key.code == Char('R') {
        if bgStatus == Idle {
          StartScan();
        }
      } else if view == AvailableNetworks {
        HandleAvailableKey(key);
      } else {
        HandleSavedKey(key);
      }
    }

    /** `handle_available_key`. */
    method HandleAvailableKey(key: Key)
      requires Valid()
      modifies this
      ensures Snapshot() == OnAvailableKey(old(Snapshot()), key)
      ensures Valid()
    {
      AvailableKeyKeepsInv(Snapshot(), key);
      if key.code == Up || key.code == Char('k') {
        if netIndex > 0 {
          netIndex := netIndex - 1;
        }
      } else if key.code == Down || key.code == Char('j') {
        if networks != [] && netIndex < |networks| - 1 {
          netIndex := netIndex + 1;
        }
      } else if key.code == Enter {
        if bgStatus != Idle {
          return;
        }
        if netIndex < |networks| {
          var net := networks[netIndex];
          if net.inUse {
            modal := Some(Message(AlreadyConnectedText));
            return;
          }
          var ssid := net.ssid;
          bgStatus := Connecting;
          SendTask(Connect(ssid, Some([])));
        }
      } else if key.code == Char('d') || key.code == Char('D') {
        if bgStatus == Idle && status.ssid.Some? {
          modal := Some(ConfirmDisconnect);
        }
      }
    }

    /** `handle_saved_key`. */
    method HandleSavedKey(key: Key)
      requires Valid()
      modifies this
      ensures Snapshot() == OnSavedKey(old(Snapshot()), key)
      ensures Valid()
    {
      SavedKeyKeepsInv(Snapshot(), key);
      if key.code == Up || key.code == Char('k') {
        if savedIndex > 0 {
          savedIndex := savedIndex - 1;
        }
      } else if key.code == Down || key.code == Char('j') {
        if saved != [] && savedIndex < |saved| - 1 {
          savedIndex := savedIndex + 1;
        }
      } else if key.code == Enter {
        if bgStatus != Idle {
          return;
        }
        if savedIndex < |saved| {
          var profile := saved[savedIndex];
          if profile.active {
            modal := Some(Message(AlreadyConnectedText));
            return;
          }
          var name := profile.name;
          bgStatus := Connecting;
          SendTask(Connect(name, None));
        }
      } else if key.code == Char('f') || key.code == Char('F') {
        if bgStatus != Idle {
          return;
        }
        if savedIndex < |saved| {
          var name := saved[savedIndex].name;
          modal := Some(ConfirmForget(name));
        }
      } else if key.code == Char('d') || key.code == Char('D') {
        if bgStatus == Idle && status.ssid.Some? {
          modal := Some(ConfirmDisconnect);
        }
      }
    }

    /** `handle_modal_key`, given the modal that was open when the key arrived. */
    method HandleModalKey(key: Key, current: Modal)
      requires Valid()
      modifies this
      ensures Snapshot() == OnModalKey(old(Snapshot()), key, current)
      ensures Valid()
    {
      ModalKeyKeepsInv(Snapshot(), key, current);
      match current {
        case PasswordInput =>
          HandlePasswordKey(key);
        case ConfirmDisconnect =>
          if key.code == Char('y') || key.code == Char('Y') {
            modal := None;
            bgStatus := Disconnecting;
            SendTask(Disconnect(device));
          } else {
            modal := None;
          }
        case ConfirmForget(name) =>
          if key.code == Char('y') || key.code == Char('Y') {
            modal := None;
            bgStatus := Forgetting;
            SendTask(Forget(name));
          } else {
            modal := None;
          }
        case Message(_) =>
          modal := None;
      }
    }

    /** The `Modal::PasswordInput` arm of `handle_modal_key`: edit, show or hide, submit or cancel the password. */
    method HandlePasswordKey(key: Key)
      modifies this
      ensures Snapshot() == OnModalKey(old(Snapshot()), key, PasswordInput)
    {
      if key.code == Esc {
        modal := None;
        password := [];
      } else if key.code == Enter {
        var ssid := passwordTargetSsid;
        var pw := password;
        modal := None;
        bgStatus := Connecting;
        SendTask(Connect(ssid, Some(pw)));
      } else if key.code == Backspace {
        if password != [] {
          password := password[..|password| - 1];
        }
      } else if key.code == Tab {
        passwordVisible := !passwordVisible;
      } else if key.code.Char? {
        password := password + [key.code.c];
      }
    }

    /** `handle_tick`. */
    method HandleTick()
      requires Valid()
      modifies this
      ensures Snapshot() == OnTick(old(Snapshot()))
      ensures Valid()
    {
      TickKeepsInv(Snapshot());
      spinnerFrame := (spinnerFrame + 1) % 4;
      ticksSinceScan := ticksSinceScan + 1;
      if ticksSinceScan >= AutoRefreshTicks && bgStatus == Idle {
        StartScan();
      }
    }

    /** `start_scan`. */
    method StartScan()
      modifies this
      ensures Snapshot() == ScanStarted(old(Snapshot()))
    {
      bgStatus := Scanning;
      ticksSinceScan := 0;
      SendTask(Scan(device));
      SendTask(RefreshStatus(device));
      SendTask(RefreshSaved);
    }

    /** `handle_task_result`. */
    method HandleTaskResult(result: TaskResult)
      requires Valid()
      modifies this
      ensures Snapshot() == OnTaskResult(old(Snapshot()), result)
      ensures Valid()
    {
      ResultKeepsInv(Snapshot(), result);
      match result {
        case ScanComplete(Ok(nets)) =>
          networks := nets;
          if netIndex >= |networks| && networks != [] {
            netIndex := |networks| - 1;
          }
          bgStatus := Idle;
        case ScanComplete(Err(e)) =>
          ShowOutcome(e, false);
        case ConnectComplete(Ok(msg), _) =>
          ShowOutcome(msg, true);
        case ConnectComplete(Err(e), ssid) =>
          HandleConnectError(e, ssid);
        case DisconnectComplete(Ok(msg)) =>
          ShowOutcome(msg, true);
        case DisconnectComplete(Err(e)) =>
          ShowOutcome(e, false);
        case ForgetComplete(Ok(msg)) =>
          ShowOutcome(msg, true);
        case ForgetComplete(Err(e)) =>
          ShowOutcome(e, false);
        case StatusUpdate(st) =>
          status := st;
        case SavedUpdate(Ok(list)) =>
          saved := list;
          if savedIndex >= |saved| && saved != [] {
            savedIndex := |saved| - 1;
          }
        case SavedUpdate(Err(_)) =>
      }
    }

    /**
     * The common tail of the completion arms of `handle_task_result`: back to
     * idle with the text in a message box, and after a success the refresh
     * counter set so that the next tick refreshes.
     */
    method ShowOutcome(text: string, succeeded: bool)
      modifies this
      ensures Snapshot() == old(Snapshot()).(bg := Idle, modal := Some(Message(text)),
                                            ticks := if succeeded then AutoRefreshTicks else old(ticksSinceScan))
    {
      bgStatus := Idle;
      modal := Some(Message(text));
      if succeeded {
        ticksSinceScan := AutoRefreshTicks;
      }
    }

    /** The `ConnectComplete(Err)` arm of `handle_task_result`: ask for a password when the error calls for one, otherwise show it. */
    method HandleConnectError(e: string, ssid: string)
      modifies this
      ensures Snapshot() == OnTaskResult(old(Snapshot()), ConnectComplete(Err(e), ssid))
    {
      bgStatus := Idle;
      if Nmcli.ErrorNeedsPassword(e) {
        password := [];
        passwordVisible := false;
        passwordTargetSsid := ssid;
        modal := Some(PasswordInput);
      } else {
        modal := Some(Message(e));
      }
    }
  }
}
