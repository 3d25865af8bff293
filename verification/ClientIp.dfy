/** The client address behind trusted proxies: the first untrusted hop of `X-Forwarded-For`, read right to left.

    Addresses are numbers; which texts are addresses and which addresses are trusted are parameters. */
module ClientIp {
  import opened Wrappers
  import opened Texts

  datatype Config = Config(parse: string -> Option<int>, trusted: int -> bool)

  /** The hops of a header value, left to right. */
  function Hops(xff: string): seq<string> {
    var parts := Split(xff, ',');
    seq(|parts|, i requires 0 <= i < |parts| => Trim(parts[i], IsWhiteSpace))
  }

  /** The scan stops here: not an address, or not a trusted one. */
  predicate Decides(c: Config, hop: string) {
    c.parse(hop).None? || !c.trusted(c.parse(hop).value)
  }

  /** One past the rightmost hop the scan stops at; zero without one. */
  function Stop(c: Config, hops: seq<string>): (k: nat)
    ensures k <= |hops|
    ensures k > 0 ==> Decides(c, hops[k - 1])
    ensures forall j :: k <= j < |hops| ==> !Decides(c, hops[j])
  {
    if hops == [] then 0
    else if Decides(c, hops[|hops| - 1]) then |hops|
    else Stop(c, hops[..|hops| - 1])
  }

  function Verdict(c: Config, peer: int, hops: seq<string>): int {
    var k := Stop(c, hops);
    if k == 0 || c.parse(hops[k - 1]).None? then peer else c.parse(hops[k - 1]).value
  }

  function Resolved(c: Config, peer: int, xff: Option<string>): int {
    if !c.trusted(peer) || xff.None? then peer else Verdict(c, peer, Hops(xff.value))
  }

  lemma StopLast(c: Config, hops: seq<string>)
    ensures Stop(c, hops) == if hops == [] then 0
                             else if Decides(c, hops[|hops| - 1]) then |hops| else Stop(c, hops[..|hops| - 1])
  {
  }

  method Resolve(c: Config, peer: int, xff: Option<string>) returns (ip: int)
    ensures ip == Resolved(c, peer, xff)
  {
    hide Hops, Stop;
    if !c.trusted(peer) {
      return peer;
    }
    if xff.None? {
      return peer;
    }
    var hops := Hops(xff.value);
    var n := |hops|;
    assert hops[..n] == hops;
    while n > 0
      invariant 0 <= n <= |hops|
      invariant Stop(c, hops) == Stop(c, hops[..n])
    {
      StopLast(c, hops[..n]);
      assert hops[..n][..n - 1] == hops[..n - 1];
      var hop := c.parse(hops[n - 1]);
      if hop.None? {
        return peer;
      }
      if !c.trusted(hop.value) {
        return hop.value;
      }
      n := n - 1;
    }
    StopLast(c, hops[..0]);
    return peer;
  }

  // ---------- Which address it is ----------

  /** Hop `k` is an untrusted address and every hop to its right is a trusted one. */
  ghost predicate RightmostUntrusted(c: Config, hops: seq<string>, k: nat, ip: int) {
    && k < |hops| && c.parse(hops[k]) == Some(ip) && !c.trusted(ip)
    && forall j :: k < j < |hops| ==> c.parse(hops[j]).Some? && c.trusted(c.parse(hops[j]).value)
  }

  /** Any address other than the peer's is the answer exactly when the peer is trusted and it is the rightmost
      untrusted hop with only trusted hops to its right; so the answer is the peer or untrusted. */
  lemma AnswerIffRightmostUntrusted(c: Config, peer: int, xff: string, ip: int)
    requires ip != peer
    ensures Resolved(c, peer, Some(xff)) == ip <==>
            c.trusted(peer) && exists k: nat :: RightmostUntrusted(c, Hops(xff), k, ip)
    ensures Resolved(c, peer, Some(xff)) == ip ==> !c.trusted(ip)
    ensures Resolved(c, peer, None) == peer
  {
    hide Hops;
    var hops := Hops(xff);
    var s := Stop(c, hops);
    if c.trusted(peer) && Resolved(c, peer, Some(xff)) == ip {
      assert RightmostUntrusted(c, hops, s - 1, ip);
    }
    if k: nat :| RightmostUntrusted(c, hops, k, ip) {
      assert Decides(c, hops[k]);
      assert s == k + 1;
    }
  }

  lemma {:induction false} StopConcat(c: Config, a: seq<string>, b: seq<string>)
    ensures Stop(c, a + b) == if Stop(c, b) > 0 then |a| + Stop(c, b) else Stop(c, a)
    decreases |b|
  {
    if b == [] {
      assert a + b == a;
    } else {
      assert (a + b)[..|a + b| - 1] == a + b[..|b| - 1];
      assert (a + b)[|a + b| - 1] == b[|b| - 1];
      StopConcat(c, a, b[..|b| - 1]);
    }
  }

  lemma HopsConcat(more: string, xff: string)
    ensures Hops(more + "," + xff) == Hops(more) + Hops(xff)
  {
    SplitConcat(more, xff, ',');
  }

  /** Hops added on the left are read only when every hop already there is a trusted address. */
  lemma PrependedHops(c: Config, peer: int, more: string, xff: string)
    ensures Resolved(c, peer, Some(more + "," + xff)) ==
            if forall hop :: hop in Hops(xff) ==> c.parse(hop).Some? && c.trusted(c.parse(hop).value)
            then Resolved(c, peer, Some(more)) else Resolved(c, peer, Some(xff))
  {
    hide Hops;
    HopsConcat(more, xff);
    StopConcat(c, Hops(more), Hops(xff));
  }

  /** A header that lists texts without commas, each with any whitespace around it, has those texts as its hops. */
  lemma HopsAreListed(items: seq<(string, string, string)>)
    requires items != []
    requires forall i :: 0 <= i < |items| ==> Listed(items[i])
    ensures var header := Join(seq(|items|, i requires 0 <= i < |items| => items[i].0 + items[i].1 + items[i].2), ",");
            Hops(header) == seq(|items|, i requires 0 <= i < |items| => items[i].1)
  {
    hide Trim, Listed;
    var parts := seq(|items|, i requires 0 <= i < |items| => items[i].0 + items[i].1 + items[i].2);
    forall i | 0 <= i < |items| ensures ',' !in parts[i] && Trim(parts[i], IsWhiteSpace) == items[i].1 {
      TrimListed(items[i]);
    }
    SplitJoin(parts, ',');
  }

  /** A hop between the whitespace around it. */
  ghost predicate Listed(item: (string, string, string)) {
    && AllOf(item.0, IsWhiteSpace) && AllOf(item.2, IsWhiteSpace)
    && ',' !in item.1 && Tight(item.1, IsWhiteSpace)
  }

  lemma TrimListed(item: (string, string, string))
    requires Listed(item)
    ensures var part := item.0 + item.1 + item.2; ',' !in part && Trim(part, IsWhiteSpace) == item.1
  {
    hide Trim;
    TrimPad(item.0, item.1, item.2, IsWhiteSpace);
    var part := item.0 + item.1 + item.2;
    forall i | 0 <= i < |part| ensures part[i] != ',' {
      if i < |item.0| {
        assert part[i] == item.0[i] && IsWhiteSpace(item.0[i]);
      } else if i < |item.0| + |item.1| {
        assert part[i] == item.1[i - |item.0|];
      } else {
        assert part[i] == item.2[i - |item.0| - |item.1|] && IsWhiteSpace(item.2[i - |item.0| - |item.1|]);
      }
    }
  }
}
