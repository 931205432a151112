/** When the parser publishes a fix, told from the history of the stream alone. */
module NmeaPublication {
  import opened NmeaFields
  import opened NmeaParser

  /** The state before byte n of a stream. */
  ghost function At(g: Gps, bytes: seq<Octet>, n: nat): Gps
    requires FitsAll(g, bytes) && n <= |bytes|
  {
    assert bytes == bytes[..n] + bytes[n..];
    FeedAppend(g, bytes[..n], bytes[n..]);
    Feed(g, bytes[..n])
  }

  lemma AtNext(g: Gps, bytes: seq<Octet>, n: nat)
    requires FitsAll(g, bytes) && n < |bytes|
    ensures Fits(At(g, bytes, n), bytes[n]) && At(g, bytes, n + 1) == Step(At(g, bytes, n), bytes[n])
  {
    var a, b := bytes[..n], [bytes[n]];
    assert bytes[..n + 1] == a + b;
    assert bytes == (a + b) + bytes[n + 1..];
    FeedAppend(g, a + b, bytes[n + 1..]);
    FeedAppend(g, a, b);
    var h := Feed(g, a);
    assert b[1..] == [] && Feed(h, b) == Feed(Step(h, b[0]), []);
  }

  /** The kind accepted at byte i, if it is a carriage return that completes one. */
  ghost function Accepted(g: Gps, bytes: seq<Octet>, i: nat): set<Kind>
    requires FitsAll(g, bytes) && i < |bytes|
  {
    if bytes[i] == '\r' then Completed(At(g, bytes, i)) else {}
  }

  /** The kinds accepted from byte p up to byte n. */
  ghost function AcceptedBetween(g: Gps, bytes: seq<Octet>, p: nat, n: nat): set<Kind>
    requires FitsAll(g, bytes) && p <= n <= |bytes|
    decreases n - p
  {
    if p == n then {} else AcceptedBetween(g, bytes, p, n - 1) + Accepted(g, bytes, n - 1)
  }

  /** Where the last publication before byte n was: just after the byte with which all
      six kinds had been accepted since the publication before it; 0 if there was none. */
  ghost function LastPublication(g: Gps, bytes: seq<Octet>, n: nat): (p: nat)
    requires FitsAll(g, bytes) && n <= |bytes|
    ensures p <= n
  {
    if n == 0 then 0
    else
      var p := LastPublication(g, bytes, n - 1);
      if AcceptedBetween(g, bytes, p, n) == ALL_KINDS then n else p
  }

  lemma CompletedIsKind(g: Gps)
    ensures Completed(g) <= ALL_KINDS
  {
  }

  lemma {:induction false} BetweenIsKinds(g: Gps, bytes: seq<Octet>, p: nat, n: nat)
    requires FitsAll(g, bytes) && p <= n <= |bytes|
    ensures AcceptedBetween(g, bytes, p, n) <= ALL_KINDS
    decreases n - p
  {
    if p < n {
      BetweenIsKinds(g, bytes, p, n - 1);
      CompletedIsKind(At(g, bytes, n - 1));
    }
  }

  /** Over any stream: `parsed_statement` is the set of kinds accepted since the last
      publication and never all of them, and `gps_info` is the fix as it stood at that
      publication. */
  lemma {:induction false} PublicationHistory(g: Gps, bytes: seq<Octet>, n: nat)
    requires FitsAll(g, bytes) && n <= |bytes| && g.parsed == {}
    ensures var h, p := At(g, bytes, n), LastPublication(g, bytes, n);
            && h.parsed == AcceptedBetween(g, bytes, p, n) && h.parsed < ALL_KINDS
            && h.info == if p == 0 then g.info else At(g, bytes, p).sentence.parent
  {
    if n == 0 {
      assert bytes[..0] == [];
      assert GGA in ALL_KINDS;
    } else {
      PublicationHistory(g, bytes, n - 1);
      AtNext(g, bytes, n - 1);
      var h, p := At(g, bytes, n - 1), LastPublication(g, bytes, n - 1);
      BetweenIsKinds(g, bytes, p, n);
      StepHistory(h, bytes[n - 1]);
      PublicationStep(g, bytes, n, h, p);
    }
  }

  /** The step of the induction, on the states before and after byte n - 1. */
  lemma PublicationStep(g: Gps, bytes: seq<Octet>, n: nat, h: Gps, p: nat)
    requires FitsAll(g, bytes) && 0 < n <= |bytes| && h == At(g, bytes, n - 1) && p == LastPublication(g, bytes, n - 1)
    requires h.parsed == AcceptedBetween(g, bytes, p, n - 1)
    ensures AcceptedBetween(g, bytes, p, n) == h.parsed + (if bytes[n - 1] == '\r' then Completed(h) else {})
    ensures LastPublication(g, bytes, n) == if AcceptedBetween(g, bytes, p, n) == ALL_KINDS then n else p
    ensures AcceptedBetween(g, bytes, n, n) == {}
  {
  }

  /** One byte: the accepted kind is added, and a full set is published and cleared. */
  lemma StepHistory(h: Gps, c: Octet)
    requires Fits(h, c) && h.parsed < ALL_KINDS
    ensures var all := h.parsed + (if c == '\r' then Completed(h) else {});
            var h' := Step(h, c);
            if all == ALL_KINDS then h'.parsed == {} && h'.info == h.sentence.parent == h'.sentence.parent
            else h'.parsed == all && h'.info == h.info
  {
    CompletedIsKind(h);
  }

  /** `gps_info` changes only at a byte with which every kind has been accepted since the
      previous publication. */
  lemma PublishesOnlyWhenComplete(g: Gps, bytes: seq<Octet>, n: nat)
    requires FitsAll(g, bytes) && n < |bytes| && g.parsed == {}
    requires At(g, bytes, n + 1).info != At(g, bytes, n).info
    ensures bytes[n] == '\r' && LastPublication(g, bytes, n + 1) == n + 1
    ensures AcceptedBetween(g, bytes, LastPublication(g, bytes, n), n + 1) == ALL_KINDS
  {
    PublicationHistory(g, bytes, n);
    PublicationHistory(g, bytes, n + 1);
    AtNext(g, bytes, n);
  }
}
