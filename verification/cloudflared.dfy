/** `get_cloudflared_status`: the tunnel daemon's state, the tunnel name
    parsed from `cloudflared tunnel list`, and the daemon's process age. */
module Cloudflared {
  import opened Py
  import opened PyText
  import opened Services
  import Uptime

  /** How running a command ended: with its exit code and standard output,
      or by raising (binary missing, ten-second timeout) with a message. */
  datatype Command = Completed(returncode: int, stdout: string) | CommandRaised(message: string)

  /** The tunnel name in the output of `cloudflared tunnel list`: the second
      whitespace-separated word of the third line of the stripped output
      (the first two lines are headers), or "Unknown". */
  function TunnelName(returncode: int, stdout: string): (name: string)
    ensures name == "Unknown" || (name != [] && forall c :: c in name ==> !IsSpace(c))
    ensures returncode != 0 || stdout == [] ==> name == "Unknown"
  {
    if returncode == 0 && stdout != [] then
      var lines := Split(Strip(stdout), '\n');
      if |lines| > 2 then
        var words := Words(lines[2]);
        if |words| > 1 then words[1] else "Unknown"
      else "Unknown"
    else "Unknown"
  }

  /** The tunnel name is "Unknown" when the command failed, printed nothing,
      printed fewer than three lines, or the third line has fewer than two
      words; otherwise it is that line's second word, which is non-empty and
      holds no whitespace (so no line break). */
  lemma TunnelNameCases(returncode: int, stdout: string)
    ensures returncode != 0 || stdout == [] ==> TunnelName(returncode, stdout) == "Unknown"
    ensures returncode == 0 && stdout != [] ==>
              var lines := Split(Strip(stdout), '\n');
              && Join(lines, '\n') == Strip(stdout)
              && (|lines| < 3 ==> TunnelName(returncode, stdout) == "Unknown")
              && (|lines| >= 3 && |Words(lines[2])| < 2 ==> TunnelName(returncode, stdout) == "Unknown")
              && (|lines| >= 3 && |Words(lines[2])| >= 2 ==>
                    var name := TunnelName(returncode, stdout);
                    && name == Words(lines[2])[1]
                    && name != []
                    && (forall c :: c in name ==> !IsSpace(c))
                    && '\n' !in name)
  {
    JoinSplit(Strip(stdout), '\n');
    assert IsSpace('\n');
  }

  /** A whitespace-only output has a single, empty line, so no tunnel name. */
  lemma BlankOutputHasNoName(stdout: string)
    requires forall i :: 0 <= i < |stdout| ==> IsSpace(stdout[i])
    ensures TunnelName(0, stdout) == "Unknown"
  {
    if stdout != [] {
      StripAround(stdout, [], []);
      assert stdout + [] + [] == stdout;
    }
  }

  /** The dictionary `get_cloudflared_status` returns; `error` is None where
      it has no such key. */
  datatype CloudflaredInfo = CloudflaredInfo(status: string, tunnel: string, uptime: string, error: Option<string>)

  /** `get_cloudflared_status`, given systemd's answer for the cloudflared
      unit, the result of `cloudflared tunnel list` and the process table. */
  function GetCloudflaredStatus(probe: Probe, tunnelList: Command, procs: Option<seq<Uptime.Proc>>)
    : (info: CloudflaredInfo)
    ensures info.status == "connected" || info.status == "disconnected" || info.status == "error"
    ensures info.status == "connected" <==> ServiceState(probe) == Running && tunnelList.Completed?
    ensures info.error.Some? <==> info.status == "error"
  {
    if ServiceState(probe) == Running then
      match tunnelList
      case Completed(returncode, stdout) =>
        CloudflaredInfo("connected", TunnelName(returncode, stdout),
                        Uptime.ProcessUptime(procs, "cloudflared"), None)
      case CommandRaised(message) =>
        CloudflaredInfo("error", "Error", "N/A", Some(message))
    else
      CloudflaredInfo("disconnected", "N/A", "N/A", None)
  }

  /** Connected exactly when the cloudflared unit is active and the tunnel
      listing ran; disconnected (with both details "N/A") exactly when the
      unit is not active, including when systemd could not be asked; error
      exactly when the unit is active but the listing raised. */
  lemma StatusCases(probe: Probe, tunnelList: Command, procs: Option<seq<Uptime.Proc>>)
    ensures var info := GetCloudflaredStatus(probe, tunnelList, procs);
            && (info.status == "connected" <==>
                  probe.Ran? && Strip(probe.stdout) == "active" && tunnelList.Completed?)
            && (info.status == "disconnected" <==> !(probe.Ran? && Strip(probe.stdout) == "active"))
            && (info.status == "error" <==>
                  probe.Ran? && Strip(probe.stdout) == "active" && tunnelList.CommandRaised?)
            && (info.error.Some? <==> info.status == "error")
            && (info.status == "disconnected" ==> info.tunnel == "N/A" && info.uptime == "N/A")
            && (info.status == "error" ==>
                  info.tunnel == "Error" && info.uptime == "N/A" && info.error == Some(tunnelList.message))
            && (info.status == "connected" ==>
                  info.tunnel == TunnelName(tunnelList.returncode, tunnelList.stdout)
                  && info.uptime == Uptime.ProcessUptime(procs, "cloudflared"))
  {
  }
}
