/**
 * The application state machine of src/app.rs as pure functions: each
 * function gives the state after one key press, tick or task result, and the
 * lemmas say what the source promises about those transitions. The `App`
 * class in app.dfy updates its fields in place and is proved to follow these
 * functions step by step.
 */
module AppModel {
  import opened Wrappers
  import Nmcli
  import opened Events

  datatype View = AvailableNetworks | SavedNetworks

  datatype Modal = PasswordInput | ConfirmDisconnect | ConfirmForget(name: string) | Message(text: string)

  datatype BgStatus = Idle | Scanning | Connecting | Disconnecting | Forgetting

  /** The key codes the application distinguishes; every other key is `Other`. */
  datatype KeyCode = Char(c: char) | Tab | BackTab | Up | Down | Enter | Esc | Backspace | Other

  /** A key press: its code and whether Control was held. */
  datatype Key = Key(code: KeyCode, ctrl: bool)

  /** The fields of `App`; `outbox` holds every task sent to the worker so far, oldest first. */
  datatype State = State(
    running: bool,
    view: View,
    modal: Option<Modal>,
    bg: BgStatus,
    networks: seq<Nmcli.Network>,
    saved: seq<Nmcli.SavedNetwork>,
    status: Nmcli.ConnectionStatus,
    device: string,
    netIndex: nat,
    savedIndex: nat,
    password: string,
    passwordVisible: bool,
    passwordTarget: string,
    ticks: nat,
    spinner: nat,
    outbox: seq<Task>)

  /** 30 seconds at the 250 ms tick rate. */
  const AutoRefreshTicks: nat := 120

  const AlreadyConnectedText := "Already connected " + "to this network."

  /**
   * What stays true in every reachable state: the spinner frame indexes the
   * four-frame animation, and a selection index is inside its list whenever
   * the list is non-empty (an emptied list leaves the index where it was).
   */
  predicate Inv(s: State)
  {
    && s.spinner < 4
    && (s.networks != [] ==> s.netIndex < |s.networks|)
    && (s.saved != [] ==> s.savedIndex < |s.saved|)
  }

  /** `App::new`: running, on the available view, nothing shown, and a refresh due at once. */
  function Initial(device: string): (s: State)
    ensures Inv(s)
  {
    State(true, AvailableNetworks, None, Idle, [], [], Nmcli.NotConnected, device,
          0, 0, [], false, [], AutoRefreshTicks, 0, [])
  }

  /** `start_scan`: busy scanning, the refresh counter reset, and three tasks sent in this order. */
  function ScanStarted(s: State): State
  {
    s.(bg := Scanning, ticks := 0,
       outbox := s.outbox + [Scan(s.device), RefreshStatus(s.device), RefreshSaved])
  }

  function OtherView(v: View): View
  {
    match v
    case AvailableNetworks => SavedNetworks
    case SavedNetworks => AvailableNetworks
  }

  predicate IsCtrlC(key: Key)
  {
    key.ctrl && key.code == Char('c')
  }

  /** `handle_key`: Ctrl+C quits; an open modal takes every other key; then the global keys; then the view's keys. */
  function OnKey(s: State, key: Key): State
  {
    if IsCtrlC(key) then s.(running := false)
    else if s.modal.Some? then OnModalKey(s, key, s.modal.value)
    else if key.code == Char('q') || key.code == Char('Q') then s.(running := false)
    else if key.code == Tab || key.code == BackTab then s.(view := OtherView(s.view))
    else if key.code == Char('r') || key.code == Char('R') then (if s.bg == Idle then ScanStarted(s) else s)
    else if s.view == AvailableNetworks then OnAvailableKey(s, key)
    else OnSavedKey(s, key)
  }

  /** `handle_available_key`: move the selection, connect to it, or ask to disconnect. */
  function OnAvailableKey(s: State, key: Key): State
  {
    if key.code == Up || key.code == Char('k') then
      (if s.netIndex > 0 then s.(netIndex := s.netIndex - 1) else s)
    else if key.code == Down || key.code == Char('j') then
      (if s.networks != [] && s.netIndex < |s.networks| - 1 then s.(netIndex := s.netIndex + 1) else s)
    else if key.code == Enter then
      if s.bg != Idle || s.netIndex >= |s.networks| then s
      else if s.networks[s.netIndex].inUse then s.(modal := Some(Message(AlreadyConnectedText)))
      else s.(bg := Connecting, outbox := s.outbox + [Connect(s.networks[s.netIndex].ssid, Some([]))])
    else if key.code == Char('d') || key.code == Char('D') then
      (if s.bg == Idle && s.status.ssid.Some? then s.(modal := Some(ConfirmDisconnect)) else s)
    else s
  }

  /** `handle_saved_key`: move the selection, reconnect a profile, ask to forget it, or ask to disconnect. */
  function OnSavedKey(s: State, key: Key): State
  {
    if key.code == Up || key.code == Char('k') then
      (if s.savedIndex > 0 then s.(savedIndex := s.savedIndex - 1) else s)
    else if key.code == Down || key.code == Char('j') then
      (if s.saved != [] && s.savedIndex < |s.saved| - 1 then s.(savedIndex := s.savedIndex + 1) else s)
    else if key.code == Enter then
      if s.bg != Idle || s.savedIndex >= |s.saved| then s
      else if s.saved[s.savedIndex].active then s.(modal := Some(Message(AlreadyConnectedText)))
      else s.(bg := Connecting, outbox := s.outbox + [Connect(s.saved[s.savedIndex].name, None)])
    else if key.code == Char('f') || key.code == Char('F') then
      if s.bg != Idle || s.savedIndex >= |s.saved| then s
      else s.(modal := Some(ConfirmForget(s.saved[s.savedIndex].name)))
    else if key.code == Char('d') || key.code == Char('D') then
      (if s.bg == Idle && s.status.ssid.Some? then s.(modal := Some(ConfirmDisconnect)) else s)
    else s
  }

  /** `String::pop`: the last character removed, if any. */
  function DropLast(pw: string): string
  {
    if pw == [] then [] else pw[..|pw| - 1]
  }

  /** `handle_modal_key`: the open modal interprets the key. */
  function OnModalKey(s: State, key: Key, modal: Modal): State
  {
    match modal
    case PasswordInput =>
      if key.code == Esc then s.(modal := None, password := [])
      else if key.code == Enter then
        s.(modal := None, bg := Connecting, outbox := s.outbox + [Connect(s.passwordTarget, Some(s.password))])
      else if key.code == Backspace then s.(password := DropLast(s.password))
      else if key.code == Tab then s.(passwordVisible := !s.passwordVisible)
      else if key.code.Char? then s.(password := s.password + [key.code.c])
      else s
    case ConfirmDisconnect =>
      if key.code == Char('y') || key.code == Char('Y') then
        s.(modal := None, bg := Disconnecting, outbox := s.outbox + [Disconnect(s.device)])
      else s.(modal := None)
    case ConfirmForget(name) =>
      if key.code == Char('y') || key.code == Char('Y') then
        s.(modal := None, bg := Forgetting, outbox := s.outbox + [Forget(name)])
      else s.(modal := None)
    case Message(_) => s.(modal := None)
  }

  /** `handle_tick`: advance the spinner, count the tick, and refresh once the count is due and nothing is running. */
  function OnTick(s: State): State
  {
    var t := s.(spinner := (s.spinner + 1) % 4, ticks := s.ticks + 1);
    if t.ticks >= AutoRefreshTicks && t.bg == Idle then ScanStarted(t) else t
  }

  /** The selection after a list is replaced: pulled back onto the last item if it fell off a non-empty list. */
  function ClampIndex(index: nat, len: nat): nat
  {
    if index >= len && len != 0 then len - 1 else index
  }

  /** `handle_task_result`. */
  function OnTaskResult(s: State, r: TaskResult): State
  {
    match r
    case ScanComplete(Ok(nets)) =>
      s.(networks := nets, netIndex := ClampIndex(s.netIndex, |nets|), bg := Idle)
    case ScanComplete(Err(e)) => s.(bg := Idle, modal := Some(Message(e)))
    case ConnectComplete(Ok(msg), _) => s.(bg := Idle, modal := Some(Message(msg)), ticks := AutoRefreshTicks)
    case ConnectComplete(Err(e), ssid) =>
      if Nmcli.ErrorNeedsPassword(e) then
        s.(bg := Idle, password := [], passwordVisible := false, passwordTarget := ssid, modal := Some(PasswordInput))
      else s.(bg := Idle, modal := Some(Message(e)))
    case DisconnectComplete(Ok(msg)) => s.(bg := Idle, modal := Some(Message(msg)), ticks := AutoRefreshTicks)
    case DisconnectComplete(Err(e)) => s.(bg := Idle, modal := Some(Message(e)))
    case ForgetComplete(Ok(msg)) => s.(bg := Idle, modal := Some(Message(msg)), ticks := AutoRefreshTicks)
    case ForgetComplete(Err(e)) => s.(bg := Idle, modal := Some(Message(e)))
    case StatusUpdate(status) => s.(status := status)
    case SavedUpdate(Ok(saved)) => s.(saved := saved, savedIndex := ClampIndex(s.savedIndex, |saved|))
    case SavedUpdate(Err(_)) => s
  }

  // ---------------------------------------------------------------------------
  // Invariant

  lemma KeyKeepsInv(s: State, key: Key)
    requires Inv(s)
    ensures Inv(OnKey(s, key))
  {
    if s.modal.Some? {
      ModalKeyKeepsInv(s, key, s.modal.value);
    } else if s.view == AvailableNetworks {
      AvailableKeyKeepsInv(s, key);
    } else {
      SavedKeyKeepsInv(s, key);
    }
  }

  lemma AvailableKeyKeepsInv(s: State, key: Key)
    requires Inv(s)
    ensures Inv(OnAvailableKey(s, key))
  {
  }

  lemma SavedKeyKeepsInv(s: State, key: Key)
    requires Inv(s)
    ensures Inv(OnSavedKey(s, key))
  {
  }

  lemma ModalKeyKeepsInv(s: State, key: Key, modal: Modal)
    requires Inv(s)
    ensures Inv(OnModalKey(s, key, modal))
  {
  }

  lemma TickKeepsInv(s: State)
    requires Inv(s)
    ensures Inv(OnTick(s))
  {
  }

  /** A replaced list keeps its selection inside it whenever it is non-empty. */
  lemma ClampIndexInside(index: nat, len: nat)
    ensures len != 0 ==> ClampIndex(index, len) < len
    ensures index < len ==> ClampIndex(index, len) == index
  {
  }

  lemma ResultKeepsInv(s: State, r: TaskResult)
    requires Inv(s)
    ensures Inv(OnTaskResult(s, r))
  {
  }

  // ---------------------------------------------------------------------------
  // Keys

  /** Ctrl+C stops the application whatever is on screen, and changes nothing else. */
  lemma CtrlCAlwaysQuits(s: State, key: Key)
    requires IsCtrlC(key)
    ensures !OnKey(s, key).running
    ensures OnKey(s, key).(running := s.running) == s
  {
  }

  /**
   * While a modal is open, no key other than Ctrl+C quits, switches the view,
   * moves a selection or touches the lists: `q`, Tab, `r` and the arrows all
   * go to the modal.
   */
  lemma ModalCapturesKeys(s: State, key: Key)
    requires s.modal.Some? && !IsCtrlC(key)
    ensures var t := OnKey(s, key);
      && t.running == s.running && t.view == s.view
      && t.netIndex == s.netIndex && t.savedIndex == s.savedIndex
      && t.networks == s.networks && t.saved == s.saved && t.status == s.status
      && t.ticks == s.ticks && t.spinner == s.spinner
  // No refresh starts either: at most one connect, disconnect or forget is sent, and the worker is never set to scanning.
  ensures var t := OnKey(s, key);
      && (t.bg == s.bg || t.bg in {Connecting, Disconnecting, Forgetting})
      && (t.outbox == s.outbox
          || (|t.outbox| == |s.outbox| + 1 && t.outbox[..|s.outbox|] == s.outbox
              && (t.outbox[|s.outbox|].Connect? || t.outbox[|s.outbox|].Disconnect? || t.outbox[|s.outbox|].Forget?)))
  {
  }

  /** A message is dismissed by any key, and nothing else happens. */
  lemma AnyKeyDismissesMessage(s: State, key: Key, text: string)
    requires s.modal == Some(Message(text)) && !IsCtrlC(key)
    ensures OnKey(s, key) == s.(modal := None)
  {
  }

  /** Confirming a disconnect sends exactly one task for this device; any other key just closes the dialog. */
  lemma ConfirmDisconnectAnswers(s: State, key: Key)
    requires s.modal == Some(ConfirmDisconnect) && !IsCtrlC(key)
    ensures var t := OnKey(s, key);
      && t.modal.None?
      && ((key.code == Char('y') || key.code == Char('Y')) <==> t.outbox != s.outbox)
      && (t.outbox != s.outbox ==> t.outbox == s.outbox + [Disconnect(s.device)] && t.bg == Disconnecting)
      && (t.outbox == s.outbox ==> t == s.(modal := None))
  {
  }

  /** Confirming a forget removes the profile named in the dialog; any other key just closes it. */
  lemma ConfirmForgetAnswers(s: State, key: Key, name: string)
    requires s.modal == Some(ConfirmForget(name)) && !IsCtrlC(key)
    ensures var t := OnKey(s, key);
      && t.modal.None?
      && ((key.code == Char('y') || key.code == Char('Y')) <==> t.outbox != s.outbox)
      && (t.outbox != s.outbox ==> t.outbox == s.outbox + [Forget(name)] && t.bg == Forgetting)
      && (t.outbox == s.outbox ==> t == s.(modal := None))
  {
  }

  /** In the password prompt printable keys (even `q`) are typed, Backspace deletes, Tab toggles visibility, Esc clears. */
  lemma PasswordKeys(s: State, c: char, ctrl: bool)
    requires s.modal == Some(PasswordInput)
    requires !(ctrl && c == 'c')
    ensures OnKey(s, Key(Char(c), ctrl)) == s.(password := s.password + [c])
    ensures OnKey(s, Key(Backspace, ctrl)) == s.(password := DropLast(s.password))
    ensures OnKey(s, Key(Tab, ctrl)) == s.(passwordVisible := !s.passwordVisible)
    ensures OnKey(s, Key(Esc, ctrl)) == s.(modal := None, password := [])
  {
  }

  /** Backspace is the inverse of typing one character. */
  lemma BackspaceUndoesTyping(s: State, c: char)
    requires s.modal == Some(PasswordInput)
    ensures OnKey(OnKey(s, Key(Char(c), false)), Key(Backspace, false)) == s
  {
    assert DropLast(s.password + [c]) == s.password;
  }

  /** Typing each character of `w` in turn. */
  function TypeText(s: State, w: string): State
    decreases |w|
  {
    if w == [] then s else TypeText(OnKey(s, Key(Char(w[0]), false)), w[1..])
  }

  /** Typing text into the prompt appends it to the password and changes nothing else. */
  lemma {:induction false} TypingAppends(s: State, w: string)
    requires s.modal == Some(PasswordInput)
    ensures TypeText(s, w) == s.(password := s.password + w)
    decreases |w|
  {
    if w != [] {
      var s' := OnKey(s, Key(Char(w[0]), false));
      assert s' == s.(password := s.password + [w[0]]);
      TypingAppends(s', w[1..]);
      assert s.password + [w[0]] + w[1..] == s.password + w;
    }
  }

  /** Typing a password into an empty prompt and pressing Enter sends one connect task with exactly that password. */
  lemma TypedPasswordIsSent(s: State, w: string)
    requires s.modal == Some(PasswordInput) && s.password == []
    ensures var t := OnKey(TypeText(s, w), Key(Enter, false));
      && t.outbox == s.outbox + [Connect(s.passwordTarget, Some(w))]
      && t.modal.None? && t.bg == Connecting
  {
    TypingAppends(s, w);
    assert [] + w == w;
  }

  /** An action key pressed while the worker is busy changes nothing and sends nothing. */
  lemma BusyIgnoresActions(s: State, key: Key)
    requires s.bg != Idle && s.modal.None?
    requires key.code in {Enter, Char('r'), Char('R'), Char('d'), Char('D'), Char('f'), Char('F')}
    ensures OnKey(s, key) == s
  {
  }

  /** With no modal open and the worker busy, no key sends a task. */
  lemma BusySendsNothing(s: State, key: Key)
    requires s.bg != Idle && s.modal.None?
    ensures OnKey(s, key).outbox == s.outbox
    ensures OnKey(s, key).bg == s.bg
  {
  }

  /**
   * Enter on an available network: an in-use one only shows the
   * "already connected" message; otherwise one connect task with an empty
   * password is sent, so nmcli tries saved credentials first.
   */
  lemma EnterOnAvailable(s: State, ctrl: bool)
    requires s.bg == Idle && s.modal.None? && s.view == AvailableNetworks
    requires s.netIndex < |s.networks|
    ensures var t := OnKey(s, Key(Enter, ctrl)); var net := s.networks[s.netIndex];
      && (net.inUse ==> t == s.(modal := Some(Message(AlreadyConnectedText))))
      && (!net.inUse ==> t.outbox == s.outbox + [Connect(net.ssid, Some([]))] && t.bg == Connecting && t.modal.None?)
  {
  }

  /** Enter on a saved profile reconnects it by name, with no password. */
  lemma EnterOnSaved(s: State, ctrl: bool)
    requires s.bg == Idle && s.modal.None? && s.view == SavedNetworks
    requires s.savedIndex < |s.saved|
    ensures var t := OnKey(s, Key(Enter, ctrl)); var p := s.saved[s.savedIndex];
      && (p.active ==> t == s.(modal := Some(Message(AlreadyConnectedText))))
      && (!p.active ==> t.outbox == s.outbox + [Connect(p.name, None)] && t.bg == Connecting && t.modal.None?)
  {
  }

  /** The disconnect dialog opens only when idle and connected. */
  lemma DisconnectNeedsConnection(s: State, ctrl: bool)
    requires s.modal.None?
    ensures OnKey(s, Key(Char('d'), ctrl)).modal == Some(ConfirmDisconnect) <==> s.bg == Idle && s.status.ssid.Some?
  {
  }

  /** Tab and BackTab flip between the two views; twice is back where it started. */
  lemma TabTwiceIsIdentity(s: State, k1: KeyCode, k2: KeyCode)
    requires s.modal.None? && k1 in {Tab, BackTab} && k2 in {Tab, BackTab}
    ensures OnKey(s, Key(k1, false)).view != s.view
    ensures OnKey(OnKey(s, Key(k1, false)), Key(k2, false)) == s
  {
  }

  // ---------------------------------------------------------------------------
  // Ticks

  /** Applying `n` ticks. */
  function Ticks(s: State, n: nat): State
    decreases n
  {
    if n == 0 then s else Ticks(OnTick(s), n - 1)
  }

  /** The first tick after start-up refreshes at once. */
  lemma FirstTickRefreshes(device: string)
    ensures var t := OnTick(Initial(device));
      && t.outbox == [Scan(device), RefreshStatus(device), RefreshSaved]
      && t.bg == Scanning && t.ticks == 0 && t.spinner == 1
  {
  }

  /** A single tick: a refresh starts exactly when the counted ticks reach the threshold and nothing else is running. */
  lemma TickSpec(s: State)
    ensures var t := OnTick(s);
      && t.spinner == (s.spinner + 1) % 4
      && (t.outbox != s.outbox <==> s.ticks + 1 >= AutoRefreshTicks && s.bg == Idle)
      && (t.outbox != s.outbox ==>
            t.outbox == s.outbox + [Scan(s.device), RefreshStatus(s.device), RefreshSaved]
            && t.ticks == 0 && t.bg == Scanning)
      && (t.outbox == s.outbox ==> t.ticks == s.ticks + 1 && t.bg == s.bg)
      && t.(spinner := s.spinner, ticks := s.ticks, bg := s.bg, outbox := s.outbox) == s
  {
  }

  /** While idle, the ticks before the threshold send nothing and only count; the tick that reaches it refreshes. */
  lemma {:induction false} QuietUntilDue(s: State, n: nat)
    requires s.bg == Idle && s.ticks + n < AutoRefreshTicks
    ensures Ticks(s, n).outbox == s.outbox
    ensures Ticks(s, n) == s.(ticks := s.ticks + n, spinner := Ticks(s, n).spinner)
    decreases n
  {
    if n > 0 {
      QuietUntilDue(OnTick(s), n - 1);
    }
  }

  /** Left idle after a refresh, the next refresh comes exactly 120 ticks (30 seconds) later. */
  lemma RefreshEvery120Ticks(s: State)
    requires s.bg == Idle && s.ticks == 0
    ensures Ticks(s, AutoRefreshTicks - 1).outbox == s.outbox
    ensures OnTick(Ticks(s, AutoRefreshTicks - 1)).outbox
      == s.outbox + [Scan(s.device), RefreshStatus(s.device), RefreshSaved]
  {
    QuietUntilDue(s, AutoRefreshTicks - 1);
  }

  // ---------------------------------------------------------------------------
  // Task results

  /** Every completion of a scan or a command leaves the worker idle and shows a message, except a successful scan. */
  lemma CompletionsReturnToIdle(s: State, r: TaskResult)
    requires !r.StatusUpdate? && !r.SavedUpdate?
    ensures OnTaskResult(s, r).bg == Idle
    ensures !(r.ScanComplete? && r.networks.Ok?) && !(r.ConnectComplete? && r.outcome.Err?) ==> OnTaskResult(s, r).modal.Some? && OnTaskResult(s, r).modal.value.Message?
  {
  }

  /** Status and saved-list refreshes never change the worker state, the view or the modal. */
  lemma RefreshesKeepActivity(s: State, r: TaskResult)
    requires r.StatusUpdate? || r.SavedUpdate?
    ensures var t := OnTaskResult(s, r);
      t.bg == s.bg && t.modal == s.modal && t.view == s.view && t.outbox == s.outbox
  {
  }

  /** A failed saved-list refresh is ignored entirely. */
  lemma SavedErrorIgnored(s: State, e: string)
    ensures OnTaskResult(s, SavedUpdate(Err(e))) == s
  {
  }

  /** A successful connect, disconnect or forget shows its message and makes the very next idle tick refresh. */
  lemma SuccessRefreshesOnNextTick(s: State, r: TaskResult)
    requires (r.ConnectComplete? || r.DisconnectComplete? || r.ForgetComplete?) && r.outcome.Ok?
    ensures OnTaskResult(s, r).modal == Some(Message(r.outcome.value))
    ensures OnTick(OnTaskResult(s, r)).outbox == s.outbox + [Scan(s.device), RefreshStatus(s.device), RefreshSaved]
  {
  }

  /**
   * A failed connect opens a fresh, hidden password prompt for that SSID
   * exactly when the error asks for a password; otherwise the error is shown.
   */
  lemma ConnectErrorPrompts(s: State, e: string, ssid: string)
    ensures var t := OnTaskResult(s, ConnectComplete(Err(e), ssid));
      && t.bg == Idle
      && (t.modal == Some(PasswordInput) <==> Nmcli.ErrorNeedsPassword(e))
      && (t.modal == Some(PasswordInput) ==> t.password == [] && !t.passwordVisible && t.passwordTarget == ssid)
      && (!Nmcli.ErrorNeedsPassword(e) ==> t.modal == Some(Message(e)) && t.password == s.password)
  {
  }

  /** nmcli reporting missing secrets leads, through the friendly text, to the password prompt. */
  lemma MissingSecretsPrompt(s: State, stderr: string, ssid: string)
    requires Nmcli.FirstMatch(Nmcli.Rules, stderr, 0) == Some(1)
    ensures OnTaskResult(s, ConnectComplete(Err(Nmcli.FriendlyError(stderr)), ssid)).modal == Some(PasswordInput)
  {
    Nmcli.NeedsPasswordAfterClassification(stderr);
  }

  /** A wrong password reported by nmcli reopens the prompt as well. */
  lemma WrongPasswordPrompt(s: State, stderr: string, ssid: string)
    requires Nmcli.FirstMatch(Nmcli.Rules, stderr, 0) == Some(5)
    ensures OnTaskResult(s, ConnectComplete(Err(Nmcli.FriendlyError(stderr)), ssid)).modal == Some(PasswordInput)
  {
    Nmcli.NeedsPasswordAfterClassification(stderr);
  }

  /** A scan result replaces the list and keeps the selection if it still fits. */
  lemma ScanResultSelection(s: State, nets: seq<Nmcli.Network>)
    ensures var t := OnTaskResult(s, ScanComplete(Ok(nets)));
      && t.networks == nets && t.bg == Idle
      && (s.netIndex < |nets| ==> t.netIndex == s.netIndex)
      && (nets != [] ==> t.netIndex < |nets|)
      && (nets == [] ==> t.netIndex == s.netIndex)
  {
  }

  /**
   * Tasks may overlap: a tick-driven refresh can start while the disconnect
   * dialog is open, and confirming it then sends the disconnect anyway.
   */
  lemma RefreshThenDisconnect(device: string, ssid: string)
    ensures var s0 := OnTick(Initial(device));
      var s1 := OnTaskResult(s0, StatusUpdate(Nmcli.ConnectionStatus(Some(ssid), None, None, None)));
      var s2 := OnTaskResult(s1, ScanComplete(Ok([])));
      var s3 := OnKey(s2, Key(Char('d'), false));
      var s4 := Ticks(s3, AutoRefreshTicks);
      var s5 := OnKey(s4, Key(Char('y'), false));
      && s3.modal == Some(ConfirmDisconnect)
      && s4.bg == Scanning && s4.modal == Some(ConfirmDisconnect)
      && s5.outbox == [Scan(device), RefreshStatus(device), RefreshSaved,
                       Scan(device), RefreshStatus(device), RefreshSaved, Disconnect(device)]
  {
    var s0 := OnTick(Initial(device));
    var s1 := OnTaskResult(s0, StatusUpdate(Nmcli.ConnectionStatus(Some(ssid), None, None, None)));
    var s2 := OnTaskResult(s1, ScanComplete(Ok([])));
    var s3 := OnKey(s2, Key(Char('d'), false));
    assert s3 == s2.(modal := Some(ConfirmDisconnect));
    assert s3.bg == Idle && s3.ticks == 0 && s3.device == device;
    assert s3.outbox == [Scan(device), RefreshStatus(device), RefreshSaved];
    QuietUntilDue(s3, AutoRefreshTicks - 1);
    TicksSplit(s3, AutoRefreshTicks - 1);
    var s4 := Ticks(s3, AutoRefreshTicks);
    assert s4.outbox == s3.outbox + [Scan(device), RefreshStatus(device), RefreshSaved];
  }

  /** `n + 1` ticks are `n` ticks and one more. */
  lemma {:induction false} TicksSplit(s: State, n: nat)
    ensures Ticks(s, n + 1) == OnTick(Ticks(s, n))
    decreases n
  {
    if n > 0 {
      TicksSplit(OnTick(s), n - 1);
    }
  }
}
