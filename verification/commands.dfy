/** The external commands the tester issues, recorded in order as a trace:
    the `mullvad` client's subcommands and the `speedtest-cli` run. */
module Commands {

  /** A value for `mullvad relay set tunnel-protocol`. */
  datatype Tunnel = TunnelWireGuard | TunnelOpenVPN | TunnelAny

  datatype Cmd =
    | ListRelays                                             // mullvad relay list
    | Status                                                 // mullvad status
    | Disconnect                                             // mullvad disconnect
    | Connect                                                // mullvad connect
    | SetLocation(country: string, city: string, hostname: string)  // mullvad relay set location
    | SetTunnel(tunnel: Tunnel)                              // mullvad relay set tunnel-protocol
    | SpeedTest                                              // speedtest-cli --simple

  /** `restore_original_connection`: reset the protocol to automatic, then
      disconnect. Both are best effort; their outcomes are not consulted. */
  const Cleanup: seq<Cmd> := [SetTunnel(TunnelAny), Disconnect]
}
