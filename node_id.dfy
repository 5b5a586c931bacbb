/**
 * How the server names a node that connects: the remote address is cut at
 * its last ':' (dropping the port), every '.' and ':' in what is left
 * becomes '_', and the result is prefixed with "ESP_".
 */
module NodeIds {

  /** The prefix of every derived node ID. */
  const Prefix: string := "ESP_"

  /**
   * Index of the last occurrence of `c` in `s`, or -1 when there is none
   * (Go's `strings.LastIndex` for a one-character pattern).
   */
  function LastIndex(s: string, c: char): (r: int)
    ensures -1 <= r < |s|
    ensures r >= 0 ==> s[r] == c
    ensures forall j :: r < j < |s| ==> s[j] != c
  {
    if |s| == 0 then -1
    else if s[|s| - 1] == c then |s| - 1
    else LastIndex(s[..|s| - 1], c)
  }

  /** Replace every occurrence of `from` in `s` by `to` (Go's `strings.ReplaceAll` on one character). */
  function ReplaceAll(s: string, from: char, to: char): (r: string)
    ensures |r| == |s|
    ensures forall i :: 0 <= i < |s| ==> r[i] == (if s[i] == from then to else s[i])
  {
    if |s| == 0 then [] else ReplaceAll(s[..|s| - 1], from, to) + [if s[|s| - 1] == from then to else s[|s| - 1]]
  }

  /** What one address character becomes in a node ID. */
  function Scrub(c: char): char
  {
    if c == '.' || c == ':' then '_' else c
  }

  /** The address with its port cut off. */
  function Host(addr: string): string
    requires ':' in addr
  {
    addr[..LastIndex(addr, ':')]
  }

  /** The host with dots and colons replaced, as the server cleans it. */
  function CleanIp(ip: string): (r: string)
    ensures |r| == |ip|
    ensures forall i :: 0 <= i < |ip| ==> r[i] == Scrub(ip[i])
    ensures '.' !in r && ':' !in r
  {
    ReplaceAll(ReplaceAll(ip, '.', '_'), ':', '_')
  }

  /**
   * The ID given to a connection from `addr`. Go slices with the result of
   * `LastIndex`, which panics when the address has no ':', so such an
   * address is excluded.
   */
  function NodeId(addr: string): (r: string)
    requires ':' in addr
    ensures |r| == |Prefix| + LastIndex(addr, ':')
    ensures r[..|Prefix|] == Prefix
    ensures forall i :: |Prefix| <= i < |r| ==> r[i] == Scrub(addr[i - |Prefix|])
    ensures '.' !in r && ':' !in r
  {
    Prefix + CleanIp(Host(addr))
  }

  /** The port does not take part in the ID: every port of one host yields the same node. */
  lemma {:induction false} NodeIdIgnoresPort(host: string, port: string)
    requires ':' !in port
    ensures NodeId(host + ":" + port) == Prefix + CleanIp(host)
  {
    var addr := host + ":" + port;
    assert addr[|host|] == ':';
    var k := LastIndex(addr, ':');
    assert k == |host|;
    assert Host(addr) == host;
  }

  /**
   * Two addresses of the same host name the same node, whatever their ports,
   * so a second device behind one address takes over the first one's record.
   */
  lemma SamePortlessHostSameId(host: string, p1: string, p2: string)
    requires ':' !in p1 && ':' !in p2
    ensures NodeId(host + ":" + p1) == NodeId(host + ":" + p2)
  {
    NodeIdIgnoresPort(host, p1);
    NodeIdIgnoresPort(host, p2);
  }
}
