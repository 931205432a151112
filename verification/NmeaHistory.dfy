/** The fix that is published, told from the lines received. */
module NmeaHistory {
  import opened NmeaFields
  import opened NmeaParser
  import opened NmeaPosition
  import opened NmeaTokens
  import opened NmeaTimes
  import opened NmeaItems
  import opened NmeaLines

  /** The kinds accepted, line by line. */
  ghost function AcceptedOf(lines: seq<Line>): (accepted: seq<set<Kind>>)
    requires AllOk(lines)
    ensures |accepted| == |lines|
  {
    seq(|lines|, i requires 0 <= i < |lines| => Accepted(lines[i]))
  }

  /** The kinds accepted with the lines from number p on. */
  function KindsSince(accepted: seq<set<Kind>>, p: nat): set<Kind>
    requires p <= |accepted|
    decreases |accepted|
  {
    if p == |accepted| then {} else KindsSince(accepted[..|accepted| - 1], p) + accepted[|accepted| - 1]
  }

  /** How many lines there were up to the last publication; 0 if there was none. */
  function Published(accepted: seq<set<Kind>>): (p: nat)
    ensures p <= |accepted|
  {
    if accepted == [] then 0
    else
      var p := Published(accepted[..|accepted| - 1]);
      if KindsSince(accepted, p) == ALL_KINDS then |accepted| else p
  }

  /** The fix after all lines, accepted or not. */
  ghost function FixOfLines(first: Fix, lines: seq<Line>): Fix
    requires AllOk(lines)
    decreases |lines|
  {
    if lines == [] then first
    else FixAfter(FixOfLines(first, lines[..|lines| - 1]), lines[|lines| - 1])
  }

  lemma {:induction false} KindsAreKinds(accepted: seq<set<Kind>>, p: nat)
    requires p <= |accepted| && forall i :: 0 <= i < |accepted| ==> accepted[i] <= ALL_KINDS
    ensures KindsSince(accepted, p) <= ALL_KINDS
    decreases |accepted|
  {
    if p < |accepted| {
      KindsAreKinds(accepted[..|accepted| - 1], p);
    }
  }

  ghost predicate RemembersKinds(h: Gps, accepted: seq<set<Kind>>) {
    h.parsed == KindsSince(accepted, Published(accepted)) && h.parsed < ALL_KINDS
  }

  ghost predicate RemembersFixes(exact: bool, h: Gps, g: Gps, lines: seq<Line>, p: nat)
    requires AllOk(lines) && p <= |lines|
  {
    var first := g.sentence.parent;
    && SameFix(exact, h.sentence.parent, FixOfLines(first, lines))
    && SameFix(exact, h.info, if p == 0 then g.info else FixOfLines(first, lines[..p]))
  }

  /** The times and dates of all lines have all their digits. */
  ghost predicate AllTimesFit(lines: seq<Line>)
    requires AllOk(lines)
  {
    forall i :: 0 <= i < |lines| ==> SentenceTimesFit(lines[i].fields)
  }

  /** What the parser remembers of a list of lines that began in state g: the kinds since the
      last publication, the fix that all lines left, and the published one, which is the fix
      that all lines up to that publication left. */
  ghost predicate Remembers(exact: bool, h: Gps, g: Gps, lines: seq<Line>)
    requires AllOk(lines)
  {
    RemembersKinds(h, AcceptedOf(lines)) && RemembersFixes(exact, h, g, lines, Published(AcceptedOf(lines)))
  }

  /** The states before and after the last line, and what that line did. */
  lemma LastOutcome(g: Gps, lines: seq<Line>, before: seq<Line>, l: Line) returns (h: Gps, h': Gps)
    requires Wf(g) && AllOk(lines) && AllOk(before) && LineOk(l) && lines == before + [l]
    ensures FitsAll(g, LinesText(before)) && h == Feed(g, LinesText(before))
    ensures FitsAll(g, LinesText(lines)) && h' == Feed(g, LinesText(lines))
    ensures Wf(h) && Takes(h, Accepted(l), h')
    ensures FitsAll(h, Head(l)) && h'.sentence == Feed(h, Head(l)).sentence
  {
    assert lines[..|lines| - 1] == before;
    h, h' := LastLine(g, lines);
    LineEffect(h, l);
  }

  lemma AcceptedIsKinds(lines: seq<Line>)
    requires AllOk(lines)
    ensures forall i :: 0 <= i < |lines| ==> AcceptedOf(lines)[i] <= ALL_KINDS
  {
  }

  lemma PublishedStep(before: seq<set<Kind>>, more: set<Kind>, accepted: seq<set<Kind>>)
    requires accepted == before + [more]
    ensures KindsSince(accepted, Published(before)) == KindsSince(before, Published(before)) + more
    ensures Published(accepted) ==
            if KindsSince(accepted, Published(before)) == ALL_KINDS then |accepted| else Published(before)
  {
    assert accepted[..|accepted| - 1] == before;
  }

  lemma NothingSince(accepted: seq<set<Kind>>)
    ensures KindsSince(accepted, |accepted|) == {}
  {
  }

  lemma KindsStep(a: seq<set<Kind>>, more: set<Kind>, a': seq<set<Kind>>, h: Gps, h': Gps)
    requires a' == a + [more] && (forall i :: 0 <= i < |a'| ==> a'[i] <= ALL_KINDS)
    requires RemembersKinds(h, a) && Takes(h, more, h')
    ensures RemembersKinds(h', a')
    ensures Published(a') == if h.parsed + more == ALL_KINDS then |a'| else Published(a)
  {
    PublishedStep(a, more, a');
    KindsAreKinds(a', Published(a));
    NothingSince(a');
    assert GGA in ALL_KINDS;
  }

  lemma FixesStep(exact: bool, g: Gps, f: Fix, before: seq<Line>, l: Line, lines: seq<Line>, p: nat,
                  full: bool, h: Gps, h': Gps)
    requires AllOk(lines) && AllOk(before) && LineOk(l) && lines == before + [l] && p <= |before|
    requires RemembersFixes(exact, h, g, before, p)
    requires f == FixOfLines(g.sentence.parent, before) && SameFix(exact, h'.sentence.parent, FixAfter(f, l))
    requires h'.info == if full then h'.sentence.parent else h.info
    ensures RemembersFixes(exact, h', g, lines, if full then |lines| else p)
  {
    assert lines[..|lines| - 1] == before;
    assert lines[..|lines|] == lines && lines[..p] == before[..p];
  }

  lemma MemoryStep(exact: bool, g: Gps, f: Fix, before: seq<Line>, l: Line, lines: seq<Line>, h: Gps, h': Gps)
    requires AllOk(lines) && AllOk(before) && LineOk(l) && lines == before + [l]
    requires Remembers(exact, h, g, before) && Takes(h, Accepted(l), h')
    requires f == FixOfLines(g.sentence.parent, before) && SameFix(exact, h'.sentence.parent, FixAfter(f, l))
    ensures Remembers(exact, h', g, lines)
  {
    var a, a' := AcceptedOf(before), AcceptedOf(lines);
    assert a' == a + [Accepted(l)];
    AcceptedIsKinds(lines);
    KindsStep(a, Accepted(l), a', h, h');
    FixesStep(exact, g, f, before, l, lines, Published(a), h.parsed + Accepted(l) == ALL_KINDS, h, h');
  }

  /** Over every list of lines: the kinds collected are those accepted since the last
      publication, and the published fix is the one that all lines up to it left; its time
      and date too, if those of the lines have all their digits. */
  lemma {:induction false} LinesHistory(exact: bool, g: Gps, lines: seq<Line>)
    requires Wf(g) && AllOk(lines) && g.parsed == {} && (exact ==> AllTimesFit(lines))
    ensures FitsAll(g, LinesText(lines)) && Remembers(exact, Feed(g, LinesText(lines)), g, lines)
    decreases |lines|
  {
    if lines == [] {
      assert GGA in ALL_KINDS;
    } else {
      var before, l := lines[..|lines| - 1], lines[|lines| - 1];
      assert lines == before + [l];
      var h, h' := LastOutcome(g, lines, before, l);
      LinesHistory(exact, g, before);
      var f := FixOfLines(g.sentence.parent, before);
      LineSetsFix(exact, h, f, l);
      MemoryStep(exact, g, f, before, l, lines, h, h');
    }
  }

  // ----- whose position that is

  function KindOfLine(l: Line): Kind
    requires l.fields != []
  {
    KindOf(['$'] + l.fields[0])
  }

  /** A GGA, RMC or GLL line with all four fields of a position. */
  predicate HasWholePosition(l: Line) {
    l.fields != [] && HasPosition(KindOfLine(l)) && FirstField(KindOfLine(l)) + 3 < |l.fields|
  }

  function OwnPosition(l: Line): Position
    requires HasWholePosition(l)
  {
    Expected(l.fields, FirstField(KindOfLine(l)))
  }

  /** A line without any position field. */
  predicate HasNoPosition(l: Line) {
    l.fields != [] && (!HasPosition(KindOfLine(l)) || |l.fields| <= FirstField(KindOfLine(l)))
  }

  lemma WholePosition(p: Position, l: Line)
    requires HasWholePosition(l)
    ensures PositionAfter(p, l) == OwnPosition(l)
  {
    FieldsGivePosition(KindOfLine(l), p, 1, l.fields[1..]);
    ExpectedOfRest(l.fields, FirstField(KindOfLine(l)));
  }

  lemma {:induction false} EarlyFieldsKeepPosition(kind: Kind, p: Position, n: nat, fields: seq<seq<Octet>>)
    requires !HasPosition(kind) || n + |fields| <= FirstField(kind)
    ensures SetFields(kind, p, n, fields) == p
    decreases |fields|
  {
    if fields != [] {
      EarlyFieldsKeepPosition(kind, p, n + 1, fields[1..]);
    }
  }

  lemma {:induction false} LastPositionWins(first: Fix, lines: seq<Line>, i: nat)
    requires AllOk(lines) && i < |lines| && HasWholePosition(lines[i])
    requires forall j :: i < j < |lines| ==> HasNoPosition(lines[j])
    ensures PositionOf(FixOfLines(first, lines)) == OwnPosition(lines[i])
    decreases |lines|
  {
    var n := |lines| - 1;
    var f := FixOfLines(first, lines[..n]);
    LineSetsPosition(f, lines[n]);
    if i == n {
      WholePosition(PositionOf(f), lines[n]);
    } else {
      LastPositionWins(first, lines[..n], i);
      EarlyFieldsKeepPosition(KindOfLine(lines[n]), PositionOf(f), 1, lines[n].fields[1..]);
    }
  }

  /** Over every list of lines: the published position is that of the last line with a
      position before the publication, accepted or not. */
  lemma PublishedPosition(g: Gps, lines: seq<Line>, i: nat)
    requires Wf(g) && AllOk(lines) && g.parsed == {} && i < Published(AcceptedOf(lines)) && HasWholePosition(lines[i])
    requires forall j :: i < j < Published(AcceptedOf(lines)) ==> HasNoPosition(lines[j])
    ensures FitsAll(g, LinesText(lines)) && PositionOf(Feed(g, LinesText(lines)).info) == OwnPosition(lines[i])
  {
    LinesHistory(false, g, lines);
    LastPositionWins(g.sentence.parent, lines[..Published(AcceptedOf(lines))], i);
  }

  // ----- a rejected position that is published

  lemma ContainsStep(t: seq<Octet>, part: seq<Octet>)
    requires |part| <= |t| && t != [] && t[..|part|] != part
    ensures Contains(t, part) <==> Contains(t[1..], part)
  {
    if |t| == |part| {
      assert |t[1..]| < |part|;
    }
  }

  /** The text after the talker is the only place for a code of three letters. */
  lemma CodeContains(t: seq<Octet>, code: seq<Octet>, part: seq<Octet>)
    requires |code| == 3 && |part| == 3 && part[0] != '$' && part[0] != 'P' && part[1] != 'P'
    requires t == ['$', 'G', 'P'] + code
    ensures Contains(t, part) <==> code == part
  {
    var t1, t2 := t[1..], t[2..];
    assert t1[1..] == t2 && t2[1..] == code;
    assert t[..3][0] == '$' && t1[..3][1] == 'P' && t2[..3][0] == 'P';
    ContainsStep(t, part);
    ContainsStep(t1, part);
    ContainsStep(t2, part);
    assert code[..3] == code && |code[1..]| < 3;
  }

  lemma KindOfCode(code: seq<Octet>)
    requires |code| == 3
    ensures var k := KindOf(['$', 'G', 'P'] + code);
            && (code == "GGA" ==> k == GGA) && (code == "GSA" ==> k == GSA) && (code == "RMC" ==> k == RMC)
            && (code == "GSV" ==> k == GSV) && (code == "GLL" ==> k == GLL) && (code == "VTG" ==> k == VTG)
  {
    var t := ['$', 'G', 'P'] + code;
    CodeContains(t, code, "GGA");
    CodeContains(t, code, "GSA");
    CodeContains(t, code, "RMC");
    CodeContains(t, code, "GSV");
    CodeContains(t, code, "GLL");
    CodeContains(t, code, "VTG");
    CodesDiffer(code);
  }

  lemma CodesDiffer(code: seq<Octet>)
    requires |code| == 3
    ensures (code == "GGA" ==> code[1] == 'G') && (code == "GSA" ==> code[1] == 'S' && code[2] == 'A')
    ensures (code == "RMC" ==> code[1] == 'M') && (code == "GSV" ==> code[1] == 'S' && code[2] == 'V')
    ensures (code == "GLL" ==> code[1] == 'L') && (code == "VTG" ==> code[1] == 'T')
  {
  }

  /** A sentence of the GPS talker with its own checksum. */
  function Good(fields: seq<seq<Octet>>): (l: Line)
    ensures l.fields == fields && HexPair(l.hh) && Right(l)
  {
    Line(fields, OwnChecksum(Join(fields)))
  }

  /** The same with a wrong one. */
  function Bad(fields: seq<seq<Octet>>): (l: Line)
    ensures l.fields == fields && HexPair(l.hh) && !Right(l)
  {
    var zero := Line(fields, ['0', '0']);
    if Right(zero) then Line(fields, ['0', '1']) else zero
  }

  /** An accepted line of kind k without a position. */
  ghost predicate IsBare(l: Line, k: Kind) {
    LineOk(l) && Accepted(l) == {k} && HasNoPosition(l)
  }

  /** The sentence that is only its code. */
  lemma BareLine(code: seq<Octet>, k: Kind) returns (l: Line)
    requires |code| == 3 && Plain(code) && KindOf(['$', 'G', 'P'] + code) == k && k != Unknown
    ensures IsBare(l, k)
  {
    var first := ['G', 'P'] + code;
    assert ['$'] + first == ['$', 'G', 'P'] + code;
    l := Good([first]);
  }

  predicate IsCode(code: seq<Octet>, k: Kind) {
    (k == GGA && code == "GGA") || (k == GSA && code == "GSA") || (k == RMC && code == "RMC") ||
    (k == GSV && code == "GSV") || (k == GLL && code == "GLL") || (k == VTG && code == "VTG")
  }

  lemma LineOfCode(code: seq<Octet>, k: Kind) returns (l: Line)
    requires IsCode(code, k)
    ensures IsBare(l, k)
  {
    KindOfCode(code);
    l := BareLine(code, k);
  }

  /** Good lines so far, and the kinds they had accepted. */
  ghost predicate IsStream(lines: seq<Line>, accepted: seq<set<Kind>>) {
    AllOk(lines) && AcceptedOf(lines) == accepted
  }

  lemma StreamGrows(lines: seq<Line>, accepted: seq<set<Kind>>, l: Line, kinds: set<Kind>)
    requires IsStream(lines, accepted) && LineOk(l) && Accepted(l) == kinds
    ensures IsStream(lines + [l], accepted + [kinds])
  {
    assert AcceptedOf(lines + [l]) == accepted + [kinds];
  }

  /** One line more, as long as nothing has been published. */
  lemma SinceStart(accepted: seq<set<Kind>>, kinds: set<Kind>, more: set<Kind>)
    requires Published(accepted) == 0 && KindsSince(accepted, 0) == kinds
    ensures KindsSince(accepted + [more], 0) == kinds + more
    ensures Published(accepted + [more]) == if kinds + more == ALL_KINDS then |accepted| + 1 else 0
  {
    assert (accepted + [more])[..|accepted|] == accepted;
  }

  /** The sixth kind completes the collection; a line that accepts nothing does not matter. */
  lemma SixKindsPublish(a: seq<set<Kind>>)
    requires a == [{GSA}] + [{RMC}] + [{GSV}] + [{GLL}] + [{GGA}] + [{}] + [{VTG}]
    ensures Published(a) == 7
  {
    var a1: seq<set<Kind>> := [] + [{GSA}];
    SinceStart([], {}, {GSA});
    SinceStart(a1, {GSA}, {RMC});
    var a2 := a1 + [{RMC}];
    SinceStart(a2, {GSA, RMC}, {GSV});
    var a3 := a2 + [{GSV}];
    SinceStart(a3, {GSA, RMC, GSV}, {GLL});
    var a4 := a3 + [{GLL}];
    SinceStart(a4, {GSA, RMC, GSV, GLL}, {GGA});
    var a5 := a4 + [{GGA}];
    SinceStart(a5, {GSA, RMC, GSV, GLL, GGA}, {});
    var a6 := a5 + [{}];
    SinceStart(a6, {GSA, RMC, GSV, GLL, GGA}, {VTG});
    assert a == a6 + [{VTG}];
  }

  lemma StreamOfCode(lines: seq<Line>, accepted: seq<set<Kind>>, code: seq<Octet>, k: Kind) returns (l: Line)
    requires IsStream(lines, accepted) && IsCode(code, k)
    ensures IsStream(lines + [l], accepted + [{k}])
  {
    l := LineOfCode(code, k);
    StreamGrows(lines, accepted, l, {k});
  }

  /** Five accepted lines of five kinds. */
  lemma FiveLines() returns (lines: seq<Line>)
    ensures IsStream(lines, [] + [{GSA}] + [{RMC}] + [{GSV}] + [{GLL}] + [{GGA}])
  {
    var a := StreamOfCode([], [], "GSA", GSA);
    var b := StreamOfCode([] + [a], [] + [{GSA}], "RMC", RMC);
    var c := StreamOfCode([] + [a] + [b], [] + [{GSA}] + [{RMC}], "GSV", GSV);
    var d := StreamOfCode([] + [a] + [b] + [c], [] + [{GSA}] + [{RMC}] + [{GSV}], "GLL", GLL);
    lines := [] + [a] + [b] + [c] + [d];
    var e := StreamOfCode(lines, [] + [{GSA}] + [{RMC}] + [{GSV}] + [{GLL}], "GGA", GGA);
    lines := lines + [e];
  }

  /** A GGA line with a position and a wrong checksum. */
  lemma BadLine() returns (l: Line)
    ensures LineOk(l) && !Right(l) && HasWholePosition(l)
    ensures OwnPosition(l) == Position(Negated(Degrees(['1', '2'])), Degrees(['3', '4']))
  {
    var first: seq<Octet> := ['G', 'P', 'G', 'G', 'A'];
    var code: seq<Octet> := "GGA";
    KindOfCode(code);
    assert ['$'] + first == ['$', 'G', 'P'] + code;
    l := BadPosition(first);
  }

  lemma BadPosition(first: seq<Octet>) returns (l: Line)
    requires |first| == 5 && Plain(first) && KindOf(['$'] + first) == GGA
    ensures LineOk(l) && !Right(l) && HasWholePosition(l)
    ensures OwnPosition(l) == Position(Negated(Degrees(['1', '2'])), Degrees(['3', '4']))
  {
    l := Bad([first, [], ['1', '2'], ['S'], ['3', '4'], ['E']]);
  }

  /** A concrete stream: from any state with nothing collected, six accepted lines publish
      the position of a seventh, whose checksum is wrong. */
  lemma RejectedPositionIsPublished(g: Gps) returns (lines: seq<Line>)
    requires Wf(g) && g.parsed == {}
    ensures |lines| == 7 && AllOk(lines) && !Right(lines[5]) && FitsAll(g, LinesText(lines))
    ensures PositionOf(Feed(g, LinesText(lines)).info) == Position(Negated(Degrees(['1', '2'])), Degrees(['3', '4']))
  {
    var five := FiveLines();
    var bad := BadLine();
    var last := LineOfCode("VTG", VTG);
    lines := StreamEnds(five, bad, last);
    StreamPosition(g, lines);
  }

  lemma StreamPosition(g: Gps, lines: seq<Line>)
    requires Wf(g) && g.parsed == {} && |lines| == 7 && AllOk(lines) && Published(AcceptedOf(lines)) == 7
    requires HasWholePosition(lines[5]) && HasNoPosition(lines[6])
    ensures FitsAll(g, LinesText(lines)) && PositionOf(Feed(g, LinesText(lines)).info) == OwnPosition(lines[5])
  {
    LinesHistory(false, g, lines);
    assert lines[..7] == lines && lines[..6][5] == lines[5];
    LastTwo(g.sentence.parent, lines);
  }

  lemma LastTwo(first: Fix, lines: seq<Line>)
    requires |lines| == 7 && AllOk(lines) && HasWholePosition(lines[5]) && HasNoPosition(lines[6])
    ensures PositionOf(FixOfLines(first, lines)) == OwnPosition(lines[5])
  {
    LastPositionWins(first, lines, 5);
  }

  lemma StreamEnds(five: seq<Line>, bad: Line, last: Line) returns (lines: seq<Line>)
    requires IsStream(five, [] + [{GSA}] + [{RMC}] + [{GSV}] + [{GLL}] + [{GGA}])
    requires LineOk(bad) && !Right(bad) && IsBare(last, VTG)
    ensures |lines| == 7 && AllOk(lines) && lines[5] == bad && lines[6] == last && Published(AcceptedOf(lines)) == 7
  {
    var accepted := [] + [{GSA}] + [{RMC}] + [{GSV}] + [{GLL}] + [{GGA}];
    StreamGrows(five, accepted, bad, {});
    StreamGrows(five + [bad], accepted + [{}], last, {VTG});
    lines := five + [bad] + [last];
    SixKindsPublish(accepted + [{}] + [{VTG}]);
  }
}
