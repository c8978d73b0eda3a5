/** The address a request comes from, read right to left through trusted proxies. */
module SourceAddress {
  import opened Common
  import Text

  /** The bits of an address, the highest first: 32 of them or 128. */
  datatype Address = V4(bits: seq<bool>) | V6(bits: seq<bool>, zone: string)

  /** A masked CIDR prefix is nothing but its leading bits. */
  datatype Prefix = V4Prefix(lead: seq<bool>) | V6Prefix(lead: seq<bool>)

  datatype Resolved = NoAddress | Resolved(address: Address, forwarded: bool)

  /** The bits of an IPv4 address that is written as an IPv6 one begin with 80 zeros and 16 ones. */
  predicate Mapped(bits: seq<bool>) { |bits| >= 96 && forall i :: 0 <= i < 96 ==> bits[i] == (i >= 80) }

  function Unmap(a: Address): Address {
    match a
    case V4(_) => a
    case V6(bits, _) => if Mapped(bits) then V4(bits[96..]) else a
  }

  predicate Contains(p: Prefix, a: Address) {
    match (p, a)
    case (V4Prefix(lead), V4(bits)) => lead <= bits
    case (V6Prefix(lead), V6(bits, zone)) => zone == "" && lead <= bits
    case _ => false
  }

  predicate Trusted(trusted: seq<Prefix>, a: Address) {
    exists p <- trusted :: Contains(p, Unmap(a))
  }

  method IsTrusted(trusted: seq<Prefix>, a: Address) returns (r: bool)
    ensures r <==> Trusted(trusted, a)
  {
    var address := Unmap(a);
    for i := 0 to |trusted|
      invariant forall p <- trusted[..i] :: !Contains(p, address)
    {
      if Contains(trusted[i], address) {
        return true;
      }
    }
    assert trusted[..|trusted|] == trusted;
    return false;
  }

  // The meaning, on the list of hops

  /** Every forwarded hop, the leftmost first. */
  function Hops(values: seq<string>): seq<string> {
    if values == [] then [] else Hops(values[..|values| - 1]) + Text.Split(values[|values| - 1], ',')
  }

  /** The trusted proxies, and the address the library's parser finds in the text of a hop, spaces trimmed. */
  datatype Setting = Setting(trusted: seq<Prefix>, parsed: imap<string, Address>)
  {
    function Parse(hop: string): Option<Address> {
      if hop in parsed then Some(Unmap(parsed[hop])) else None
    }

    predicate Passes(hop: string) { Parse(hop).Some? && Trusted(trusted, Parse(hop).value) }
  }

  /** The hop that decides: the rightmost one that is malformed or not trusted, if there is one. */
  function Deciding(s: Setting, hops: seq<string>): (d: Option<nat>)
    ensures d.Some? ==> d.value < |hops|
  {
    if hops == [] then None
    else if !s.Passes(hops[|hops| - 1]) then Some(|hops| - 1)
    else Deciding(s, hops[..|hops| - 1])
  }

  lemma {:induction false} DecidingIsRightmost(s: Setting, hops: seq<string>, k: nat)
    requires k <= |hops| && forall i :: k <= i < |hops| ==> s.Passes(hops[i])
    requires k > 0 ==> !s.Passes(hops[k - 1])
    ensures Deciding(s, hops) == if k > 0 then Some(k - 1) else None
  {
    if k < |hops| {
      DecidingIsRightmost(s, hops[..|hops| - 1], k);
    }
  }

  /** The answer for a well-formed peer. */
  function Answer(s: Setting, peer: Address, hops: seq<string>): Resolved {
    if !Trusted(s.trusted, peer) || hops == [] then Resolved(peer, false)
    else
      match Deciding(s, hops)
      case None => (match s.Parse(hops[0]) case Some(a) => Resolved(a, true) case None => NoAddress)
      case Some(d) => (match s.Parse(hops[d]) case Some(a) => Resolved(a, true) case None => Resolved(peer, false))
  }

  // The scan

  function LastComma(text: string): (at: int)
    ensures -1 <= at < |text|
  {
    if text == "" then -1
    else if text[|text| - 1] == ',' then |text| - 1
    else LastComma(text[..|text| - 1])
  }

  lemma {:induction false} LastCommaIsLast(text: string)
    ensures var at := LastComma(text);
            && (at >= 0 ==> text[at] == ',')
            && forall i :: at < i < |text| ==> text[i] != ','
  {
    if text != "" && text[|text| - 1] != ',' {
      LastCommaIsLast(text[..|text| - 1]);
    }
  }

  lemma LastHop(text: string)
    ensures var at := LastComma(text);
            Text.Split(text, ',') == if at < 0 then [text] else Text.Split(text[..at], ',') + [text[at + 1..]]
  {
    var at := LastComma(text);
    LastCommaIsLast(text);
    if at < 0 {
      Text.SplitWhole(text, ',');
    } else {
      assert text == text[..at] + "," + text[at + 1..];
      Text.SplitAt(text[..at], ',', text[at + 1..]);
      Text.SplitWhole(text[at + 1..], ',');
    }
  }

  /** What the scan knows when only `left` is still to be looked at: the other hops do not decide, and the
      leftmost of them is the answer so far. */
  predicate Scanned(s: Setting, own: Address, hops: seq<string>, left: seq<string>, r: Resolved) {
    && left <= hops
    && Deciding(s, hops) == Deciding(s, left)
    && r == if left == hops then Resolved(own, false) else Stopped(s, own, hops[|left|])
  }

  /** The answer where the scan stops. */
  function Stopped(s: Setting, own: Address, hop: string): Resolved {
    match s.Parse(hop)
    case Some(a) => Resolved(a, true)
    case None => Resolved(own, false)
  }

  /** With only `rest` and then `hop` to be looked at, `hop` decides or the scan goes on to its left. */
  predicate Looked(s: Setting, own: Address, hops: seq<string>, rest: seq<string>, hop: string) {
    && (s.Passes(hop) ==> Scanned(s, own, hops, rest, Stopped(s, own, hop)))
    && (!s.Passes(hop) ==> Answer(s, own, hops) == Stopped(s, own, hop))
  }

  lemma HopStep(s: Setting, own: Address, hops: seq<string>, rest: seq<string>, hop: string, r: Resolved)
    requires Scanned(s, own, hops, rest + [hop], r) && Trusted(s.trusted, own)
    ensures Looked(s, own, hops, rest, hop)
  {
    var left := rest + [hop];
    assert left[..|left| - 1] == rest && left[|left| - 1] == hop && hops[|rest|] == hop;
  }

  lemma NoneDecides(s: Setting, own: Address, hops: seq<string>, r: Resolved)
    requires Scanned(s, own, hops, [], r) && Trusted(s.trusted, own)
    ensures r == Answer(s, own, hops)
  {
    if hops != [] {
      DecidingFails(s, hops);
    }
  }

  function All(before: seq<string>, text: string): seq<string> { before + Text.Split(text, ',') }

  /** The last hop of `text` is what follows its last comma, and the others are those in front of it. */
  lemma TextStep(s: Setting, own: Address, hops: seq<string>, before: seq<string>, text: string, r: Resolved)
    requires Scanned(s, own, hops, All(before, text), r) && Trusted(s.trusted, own)
    ensures LastComma(text) < 0 ==> Looked(s, own, hops, before, text)
    ensures LastComma(text) >= 0 ==>
              Looked(s, own, hops, All(before, text[..LastComma(text)]), text[LastComma(text) + 1..])
  {
    LastHop(text);
    var at := LastComma(text);
    if at < 0 {
      HopStep(s, own, hops, before, text, r);
    } else {
      AllButLast(before, text, text[..at], text[at + 1..]);
      HopStep(s, own, hops, All(before, text[..at]), text[at + 1..], r);
    }
  }

  lemma AllButLast(before: seq<string>, text: string, front: string, last: string)
    requires Text.Split(text, ',') == Text.Split(front, ',') + [last]
    ensures All(before, text) == All(before, front) + [last]
  {
  }

  /** Scans one header value from the right, after all those behind it; `before` are the hops of earlier ones. */
  method ScanValue(s: Setting, own: Address, value: string, r0: Resolved, ghost hops: seq<string>, ghost before: seq<string>)
    returns (r: Resolved, decided: bool)
    requires Trusted(s.trusted, own) && Scanned(s, own, hops, All(before, value), r0)
    ensures decided ==> r == Answer(s, own, hops)
    ensures !decided ==> Scanned(s, own, hops, before, r)
  {
    var remaining := value;
    r := r0;
    while true
      invariant Scanned(s, own, hops, All(before, remaining), r)
      decreases |remaining|
    {
      TextStep(s, own, hops, before, remaining, r);
      var separator := LastComma(remaining);
      var raw := remaining;
      if separator >= 0 {
        raw := remaining[separator + 1..];
      }
      var candidate := s.Parse(raw);
      if candidate.None? {
        return Resolved(own, false), true;
      }
      r := Resolved(candidate.value, true);
      var known := IsTrusted(s.trusted, candidate.value);
      if !known {
        return r, true;
      }
      if separator < 0 {
        return r, false;
      }
      remaining := remaining[..separator];
    }
  }

  lemma HopsOfLast(values: seq<string>, index: nat)
    requires 0 < index <= |values|
    ensures Hops(values[..index]) == All(Hops(values[..index - 1]), values[index - 1])
  {
    HopsOfLastValue(values[..index], values[..index - 1], values[index - 1]);
  }

  method Resolve(s: Setting, peer: Option<Address>, values: seq<string>) returns (r: Resolved)
    ensures peer.None? ==> r == NoAddress
    ensures peer.Some? ==> r == Answer(s, Unmap(peer.value), Hops(values))
  {
    if peer.None? {
      return NoAddress;
    }
    var own := Unmap(peer.value);
    r := Resolved(own, false);
    var known := IsTrusted(s.trusted, own);
    if !known || values == [] {
      return;
    }
    ghost var hops := Hops(values);
    var index := |values|;
    assert values[..index] == values;
    while index > 0
      invariant 0 <= index <= |values|
      invariant Scanned(s, own, hops, Hops(values[..index]), r)
    {
      HopsOfLast(values, index);
      var decided;
      r, decided := ScanValue(s, own, values[index - 1], r, hops, Hops(values[..index - 1]));
      if decided {
        return;
      }
      index := index - 1;
    }
    NoneDecides(s, own, hops, r);
  }

  // What the client writes on the left cannot matter

  lemma {:induction false} DecidingIsLocal(s: Setting, more: seq<string>, hops: seq<string>)
    requires Deciding(s, hops).Some?
    ensures Deciding(s, more + hops) == Some(|more| + Deciding(s, hops).value)
  {
    var last := |hops| - 1;
    assert (more + hops)[|more + hops| - 1] == hops[last];
    if s.Passes(hops[last]) {
      assert (more + hops)[..|more + hops| - 1] == more + hops[..last];
      DecidingIsLocal(s, more, hops[..last]);
    }
  }

  lemma AnswerIsLocal(s: Setting, peer: Address, more: seq<string>, hops: seq<string>)
    requires Deciding(s, hops).Some?
    ensures Answer(s, peer, more + hops) == Answer(s, peer, hops)
  {
    DecidingIsLocal(s, more, hops);
    assert (more + hops)[|more| + Deciding(s, hops).value] == hops[Deciding(s, hops).value];
  }

  /** Hops written before the deciding one, well formed or not, leave the answer as it is. */
  lemma LeftHopsAreIgnored(s: Setting, peer: Address, left: seq<string>, other: seq<string>, hops: seq<string>)
    requires Deciding(s, hops).Some?
    ensures Answer(s, peer, left + hops) == Answer(s, peer, hops) == Answer(s, peer, other + hops)
  {
    AnswerIsLocal(s, peer, left, hops);
    AnswerIsLocal(s, peer, other, hops);
  }

  lemma {:induction false} HopsAppend(values: seq<string>, more: seq<string>)
    ensures Hops(values + more) == Hops(values) + Hops(more)
  {
    if more == [] {
      assert values + more == values;
    } else {
      var front, last := more[..|more| - 1], more[|more| - 1];
      HopsOfLastValue(values + more, values + front, last);
      HopsOfLastValue(more, front, last);
      HopsAppend(values, front);
      Together(Hops(values), Hops(front), Text.Split(last, ','));
    }
  }

  lemma Together(a: seq<string>, b: seq<string>, c: seq<string>)
    ensures (a + b) + c == a + (b + c)
  {
  }

  lemma HopsOfLastValue(values: seq<string>, front: seq<string>, last: string)
    requires values == front + [last]
    ensures Hops(values) == Hops(front) + Text.Split(last, ',')
  {
    assert values[..|values| - 1] == front;
  }

  /**
   * On the header itself: when some hop of `text`, or of the values after it, decides, then neither earlier
   * header values nor text put in front of `text` with a comma change the answer.
   */
  lemma TextOnTheLeftIsIgnored(s: Setting, peer: Address, earlier: seq<string>, front: string, text: string, later: seq<string>)
    requires Deciding(s, Hops([text] + later)).Some?
    ensures Answer(s, peer, Hops(earlier + [front + "," + text] + later)) == Answer(s, peer, Hops([text] + later))
  {
    HopsWithFront(earlier, front, text, later);
    AnswerIsLocal(s, peer, Hops(earlier) + Text.Split(front, ','), Hops([text] + later));
  }

  lemma HopsWithFront(earlier: seq<string>, front: string, text: string, later: seq<string>)
    ensures Hops(earlier + [front + "," + text] + later) == Hops(earlier) + Text.Split(front, ',') + Hops([text] + later)
  {
    Text.SplitAt(front, ',', text);
    HopsOfOne(text);
    HopsOfOne(front + "," + text);
    HopsAround(earlier, front + "," + text, later);
    HopsAppend([text], later);
    SplitBetween(Hops(earlier), Text.Split(front, ','), Text.Split(text, ','), Hops(later));
  }

  lemma SplitBetween(a: seq<string>, b: seq<string>, c: seq<string>, d: seq<string>)
    ensures a + (b + c) + d == a + b + (c + d)
  {
  }

  lemma HopsAround(earlier: seq<string>, value: string, later: seq<string>)
    ensures Hops(earlier + [value] + later) == Hops(earlier) + Hops([value]) + Hops(later)
  {
    HopsAppend(earlier, [value]);
    HopsAppend(earlier + [value], later);
  }

  lemma HopsOfOne(text: string)
    ensures Hops([text]) == Text.Split(text, ',')
  {
    assert [text][..0] == [];
    assert Hops([]) == [];
  }

  /** A forwarded answer comes through a trusted peer, and it is untrusted unless it is the leftmost hop. */
  lemma ForwardedIsOutside(s: Setting, peer: Address, hops: seq<string>)
    ensures var r := Answer(s, peer, hops);
            && r.Resolved?
            && (r.forwarded ==> Trusted(s.trusted, peer))
            && (r.forwarded && Trusted(s.trusted, r.address) ==> hops != [] && s.Parse(hops[0]) == Some(r.address))
            && (!r.forwarded ==> r.address == peer)
  {
    DecidingFails(s, hops);
  }

  lemma {:induction false} DecidingFails(s: Setting, hops: seq<string>)
    ensures match Deciding(s, hops)
            case Some(d) => !s.Passes(hops[d])
            case None => hops == [] || s.Passes(hops[0])
  {
    if |hops| > 1 {
      DecidingFails(s, hops[..|hops| - 1]);
    }
  }

  // The answer, without the deciding hop

  /** With a trusted peer and some hops, of which those right of hop `d` all pass: a hop `d` that is well formed
      but not trusted is the answer, and a malformed one gives the peer. */
  lemma FirstFromTheRight(s: Setting, peer: Address, hops: seq<string>, d: nat)
    requires Trusted(s.trusted, peer) && d < |hops|
    requires forall i :: d < i < |hops| ==> hops[i] in s.parsed && Trusted(s.trusted, s.parsed[hops[i]])
    ensures hops[d] !in s.parsed ==> Answer(s, peer, hops) == Resolved(peer, false)
    ensures hops[d] in s.parsed && !Trusted(s.trusted, s.parsed[hops[d]]) ==>
              Answer(s, peer, hops) == Resolved(Unmap(s.parsed[hops[d]]), true)
    ensures d == 0 && hops[0] in s.parsed ==> Answer(s, peer, hops) == Resolved(Unmap(s.parsed[hops[0]]), true)
  {
    forall i | d < i < |hops|
      ensures s.Passes(hops[i])
    {
      UnmappedOnce(s.trusted, s.parsed[hops[i]]);
    }
    if hops[d] in s.parsed {
      UnmappedOnce(s.trusted, s.parsed[hops[d]]);
    }
    if s.Passes(hops[d]) {
      if d == 0 {
        DecidingIsRightmost(s, hops, 0);
      }
    } else {
      DecidingIsRightmost(s, hops, d + 1);
    }
  }

  /** A peer that is not trusted is the answer whatever the header says, and so is one without a header. */
  lemma PeerIsAnswer(s: Setting, peer: Address, hops: seq<string>)
    ensures !Trusted(s.trusted, peer) || hops == [] ==> Answer(s, peer, hops) == Resolved(peer, false)
  {
  }

  /** A prefix contains the addresses of its own family that begin with its bits, and none with a zone. */
  lemma ContainsMeans(lead: seq<bool>, bits: seq<bool>, zone: string)
    ensures Contains(V4Prefix(lead), V4(bits)) <==> |lead| <= |bits| && forall i :: 0 <= i < |lead| ==> lead[i] == bits[i]
    ensures Contains(V6Prefix(lead), V6(bits, "")) <==> |lead| <= |bits| && forall i :: 0 <= i < |lead| ==> lead[i] == bits[i]
    ensures zone != "" ==> !Contains(V6Prefix(lead), V6(bits, zone))
    ensures !Contains(V4Prefix(lead), V6(bits, zone)) && !Contains(V6Prefix(lead), V4(bits))
  {
  }

  lemma UnmappedOnce(trusted: seq<Prefix>, a: Address)
    ensures Unmap(Unmap(a)) == Unmap(a) && (Trusted(trusted, Unmap(a)) <==> Trusted(trusted, a))
  {
  }

  /** A mapped address is the IPv4 address that its last 32 bits are. */
  lemma MappedIsTrustedAlike(trusted: seq<Prefix>, bits: seq<bool>, four: seq<bool>, zone: string)
    requires |four| == 32 && |bits| == 128 && bits[96..] == four && forall i :: 0 <= i < 96 ==> bits[i] == (i >= 80)
    ensures Unmap(V6(bits, zone)) == V4(four)
    ensures Trusted(trusted, V6(bits, zone)) <==> exists p <- trusted :: p.V4Prefix? && p.lead <= four
  {
  }
}
