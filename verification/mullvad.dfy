/** The connection controller: pointing the `mullvad` client at one named
    relay and confirming the tunnel came up (`connect_to_specific_server`),
    and reading the relay name back out of `mullvad status`
    (`get_connected_server`). The client's answers are inputs. */
module Mullvad {
  import opened Prelude
  import opened Text
  import opened Commands

  /** What the client reports during one connection attempt: whether
      `mullvad connect` exited successfully, and the standard output of
      `mullvad status`, or `None` when that command failed. */
  datatype Probe = Probe(connected: bool, status: Option<string>)

  /** The verdict of one attempt and the commands it issued, in order. */
  datatype Attempt = Attempt(ok: bool, issued: seq<Cmd>)

  /** The `-`-separated fields of a hostname such as `se-got-wg-001`: country
      code, city code, then the rest. */
  function Fields(hostname: string): seq<string> {
    Split(hostname, "-")
  }

  /** A status report that mentions `Connected`. */
  predicate Confirms(status: Option<string>) {
    status.Some? && Contains(status.value, "Connected")
  }

  /** `connect_to_specific_server`. A hostname with fewer than three fields
      is refused before anything runs. Otherwise the client is disconnected,
      pointed at the relay by country code, city code and hostname, and told
      to connect; only a successful connect is followed by a status query, and
      the attempt succeeds only if that report mentions `Connected`. The
      outcomes of disconnect and set-location are never consulted. */
  function ConnectTo(hostname: string, probe: Probe): (r: Attempt)
    ensures |Fields(hostname)| < 3 ==> r == Attempt(false, [])
    ensures |Fields(hostname)| >= 3 ==>
              && |r.issued| >= 3
              && r.issued[..3] == [Disconnect, SetLocation(Fields(hostname)[0], Fields(hostname)[1], hostname), Connect]
              && r.issued[3..] == (if probe.connected then [Status] else [])
    ensures r.ok <==> |Fields(hostname)| >= 3 && probe.connected && Confirms(probe.status)
  {
    var parts := Fields(hostname);
    if |parts| < 3 then Attempt(false, [])
    else
      var setup := [Disconnect, SetLocation(parts[0], parts[1], hostname), Connect];
      if !probe.connected then Attempt(false, setup)
      else Attempt(Confirms(probe.status), setup + [Status])
  }

  /** A hostname built from three or more dash-free fields selects the relay
      by its first two fields and the full name, and the attempt's verdict
      depends only on the client's answers. */
  lemma ConnectByFields(fields: seq<string>, probe: Probe)
    requires |fields| >= 3
    requires forall k :: 0 <= k < |fields| ==> '-' !in fields[k]
    ensures var h := Join(fields, "-");
            && Fields(h) == fields
            && ConnectTo(h, probe).issued[1] == SetLocation(fields[0], fields[1], h)
            && (ConnectTo(h, probe).ok <==> probe.connected && Confirms(probe.status))
  {
    SplitJoin(fields, '-');
  }

  /** A hostname with fewer than three dash-free fields runs nothing and
      fails, whatever the client would have answered. */
  lemma ConnectShortName(fields: seq<string>, probe: Probe)
    requires 1 <= |fields| < 3
    requires forall k :: 0 <= k < |fields| ==> '-' !in fields[k]
    ensures ConnectTo(Join(fields, "-"), probe) == Attempt(false, [])
  {
    SplitJoin(fields, '-');
  }

  /** A successful attempt issued exactly disconnect, set location, connect
      and status, in that order, and ended on the status query. */
  lemma ConnectedTrace(hostname: string, probe: Probe)
    requires ConnectTo(hostname, probe).ok
    ensures |ConnectTo(hostname, probe).issued| == 4
    ensures ConnectTo(hostname, probe).issued[0] == Disconnect
    ensures ConnectTo(hostname, probe).issued[1].SetLocation?
    ensures ConnectTo(hostname, probe).issued[2] == Connect
    ensures ConnectTo(hostname, probe).issued[3] == Status
  {
  }

  /** The relay named on the first line that mentions `Relay:`. */
  function RelayName(lines: seq<string>): (r: Option<string>)
    ensures r.Some? ==> exists k :: 0 <= k < |lines| && Contains(lines[k], "Relay:")
    ensures r.Some? ==> r.value != [] && forall i :: 0 <= i < |r.value| ==> !IsSpace(r.value[i])
  {
    if lines == [] then None
    else if Contains(lines[0], "Relay:") then TokenAfter(lines[0], "Relay:")
    else RelayName(lines[1..])
  }

  /** `get_connected_server`: the first token after `Connected to` when the
      report has one; otherwise the name on the first `Relay:` line. A failed
      status query, or a marker with nothing after it, gives `None`. */
  function ConnectedServer(status: Option<string>): (r: Option<string>)
    ensures r.Some? ==> r.value != [] && forall i :: 0 <= i < |r.value| ==> !IsSpace(r.value[i])
    ensures status.None? ==> r.None?
  {
    match status
    case None => None
    case Some(out) =>
      if Contains(out, "Connected to") then TokenAfter(out, "Connected to")
      else RelayName(Split(out, "\n"))
  }

  /** `RelayName` reads the first line that mentions `Relay:` and no other. */
  lemma {:induction false} RelayNameFirst(lines: seq<string>, i: nat)
    requires i < |lines| && Contains(lines[i], "Relay:")
    requires forall j :: 0 <= j < i ==> !Contains(lines[j], "Relay:")
    ensures RelayName(lines) == TokenAfter(lines[i], "Relay:")
  {
    if i > 0 {
      RelayNameFirst(lines[1..], i - 1);
    }
  }

  /** A report of the form `... Connected to <name> ...` names that relay,
      however much white space separates the two. */
  lemma ConnectedToName(pre: string, gap: string, name: string, tail: string)
    requires 'C' !in pre && 'C' !in name
    requires forall i :: 0 <= i < |gap| ==> IsSpace(gap[i])
    requires name != [] && forall i :: 0 <= i < |name| ==> !IsSpace(name[i])
    requires tail == [] || IsSpace(tail[0])
    ensures ConnectedServer(Some(pre + "Connected to" + gap + name + tail)) == Some(name)
  {
    TokenAfterMarked(pre, "Connected to", gap, name, tail);
  }

  /** With no `Connected to` in the report, the first line of the form
      `... Relay: <name> ...` names the relay, padded or not. */
  lemma RelayLineName(lines: seq<string>, i: nat, pre: string, gap: string, name: string, tail: string)
    requires i < |lines|
    requires forall j :: 0 <= j < i ==> !Contains(lines[j], "Relay:")
    requires lines[i] == pre + "Relay:" + gap + name + tail
    requires 'R' !in pre && 'R' !in name
    requires forall k :: 0 <= k < |gap| ==> IsSpace(gap[k])
    requires name != [] && forall k :: 0 <= k < |name| ==> !IsSpace(name[k])
    requires tail == [] || IsSpace(tail[0])
    requires !Contains(Join(lines, "\n"), "Connected to")
    requires forall k :: 0 <= k < |lines| ==> '\n' !in lines[k]
    ensures ConnectedServer(Some(Join(lines, "\n"))) == Some(name)
  {
    SplitJoin(lines, '\n');
    TokenAfterMarked(pre, "Relay:", gap, name, tail);
    RelayNameFirst(lines, i);
  }
}
