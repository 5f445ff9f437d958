/**
 * The messages exchanged between the UI thread and the background worker
 * (src/event.rs:19-38). The worker itself, which performs a task by calling
 * the nmcli adapter and sends back the matching result, runs in another
 * thread and is not part of this model; the UI's side of the channel is an
 * outbox of tasks.
 */
module Events {
  import opened Wrappers
  import Nmcli

  /** Work the UI asks the worker to do. */
  datatype Task =
    | Scan(device: string)
    | Connect(ssid: string, password: Option<string>)
    | Disconnect(device: string)
    | Forget(name: string)
    | RefreshStatus(device: string)
    | RefreshSaved

  /** What the worker reports back; a connect result carries the SSID so a password can be asked for. */
  datatype TaskResult =
    | ScanComplete(networks: Result<seq<Nmcli.Network>, string>)
    | ConnectComplete(outcome: Result<string, string>, ssid: string)
    | DisconnectComplete(outcome: Result<string, string>)
    | ForgetComplete(outcome: Result<string, string>)
    | StatusUpdate(status: Nmcli.ConnectionStatus)
    | SavedUpdate(saved: Result<seq<Nmcli.SavedNetwork>, string>)
}
