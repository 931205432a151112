/** `add_queue_lpp_node`: reports of mesh nodes on their way into the ring; consecutive
    reports of the same node are dropped. */
module NodeFilter {
  import opened Hex
  import opened LppWire
  import opened LppDecoder
  import opened LppRoundTrip
  import MQ = MessageQueue
  import opened Options

  /** The node ID text of a report, whatever else the report holds. */
  function NodeKey(msg: string): Option<Value> {
    Lookup(AllEmitted(Records(BeforeZero(ReadHex(msg)))), "nodeid")
  }

  /** A node ID is always a text of twelve characters. */
  lemma {:induction false} NodeIdsAreMacs(rs: seq<Record>)
    requires AllWellFormed(rs)
    ensures var k := Lookup(AllEmitted(rs), "nodeid");
            k.Some? ==> k.value.Text? && |k.value.s| == 12
  {
    if rs != [] {
      NodeIdsAreMacs(rs[1..]);
      LookupAppend(Emitted(rs[0]), AllEmitted(rs[1..]), "nodeid");
      OneField(rs[0]);
    }
  }

  lemma OneField(r: Record)
    ensures Lookup(Emitted(r), "nodeid") == if r.tag == CM_LPP_NODE_ID then Some(Text(MacText(r.body))) else None
  {
    var e := Emitted(r);
    if e != [] {
      assert e[1..] == [];
      assert e[0].name == "nodeid" <==> r.tag == CM_LPP_NODE_ID by {
        assert "color"[0] != "nodeid"[0] && "brightness"[0] != "nodeid"[0];
        assert "read_gps"[0] != "nodeid"[0] && "type_control"[0] != "nodeid"[0];
      }
    }
  }

  lemma KeyIsMac(msg: string)
    ensures NodeKey(msg).Some? ==> NodeKey(msg).value.Text? && |NodeKey(msg).value.s| == 12
  {
    var buf := BeforeZero(ReadHex(msg));
    RecordsAreWellFormed(buf);
    NodeIdsAreMacs(Records(buf));
  }

  /** A frame that begins with a node-ID record, whatever follows, is keyed by that node
      exactly if its MAC has no zero byte; otherwise it has no key and is dropped. */
  lemma KeyOfNodeFrame(mac: seq<Byte>, rest: seq<Byte>)
    requires |mac| == 6
    ensures NodeKey(HexText(Wire(NodeId(mac)) + rest)) == if 0 in mac then None else Some(Text(MacText(mac)))
  {
    var r := NodeId(mac);
    var bs := Wire(r) + rest;
    HexRoundTrip(bs);
    if 0 in mac {
      CutInside(r, rest);
    } else {
      BeforeZeroOfSplit(Wire(r), rest);
      RecordsOfWire(r, BeforeZero(rest));
      var more := Records(BeforeZero(rest));
      assert ([r] + more)[1..] == more;
      LookupAppend(Emitted(r), AllEmitted(more), "nodeid");
      OneField(r);
    }
  }

  // ----- the filter over a run

  datatype Filter = Filter(compare: string, retry: nat)

  const START: Filter := Filter("", 0)

  function Passes(f: Filter, msg: string): bool {
    PassesKey(f, NodeKey(msg))
  }

  function PassesKey(f: Filter, key: Option<Value>): bool {
    key.Some? && key.value != Text(f.compare)
  }

  function FilterStep(f: Filter, msg: string): Filter {
    KeyStep(f, NodeKey(msg))
  }

  function KeyStep(f: Filter, key: Option<Value>): Filter {
    if key.None? || key.value.Number? then f
    else if key.value.s == f.compare then f.(retry := (f.retry + 1) % 256)
    else Filter(key.value.s, 0)
  }

  function FilterRun(f: Filter, msgs: seq<string>): Filter {
    if msgs == [] then f else FilterStep(FilterRun(f, msgs[..|msgs| - 1]), msgs[|msgs| - 1])
  }

  /** The messages that a run hands to `enqueue`. */
  function Passed(f: Filter, msgs: seq<string>): seq<string> {
    if msgs == [] then []
    else
      var before, last := msgs[..|msgs| - 1], msgs[|msgs| - 1];
      Passed(f, before) + (if Passes(FilterRun(f, before), last) then [last] else [])
  }

  /** The node IDs of a run of messages, in order; messages without one do not show. */
  function Keys(msgs: seq<string>): seq<Value> {
    if msgs == [] then []
    else
      var key := NodeKey(msgs[|msgs| - 1]);
      Keys(msgs[..|msgs| - 1]) + (if key.Some? then [key.value] else [])
  }

  /** Adjacent duplicates removed. */
  function Dedup<T(==)>(s: seq<T>): seq<T> {
    if |s| <= 1 then s
    else Dedup(s[..|s| - 1]) + (if s[|s| - 2] == s[|s| - 1] then [] else [s[|s| - 1]])
  }

  /** How many equal values a sequence ends with. */
  function TrailingRun<T(==)>(s: seq<T>): nat {
    if |s| <= 1 then |s|
    else if s[|s| - 2] == s[|s| - 1] then 1 + TrailingRun(s[..|s| - 1]) else 1
  }

  /** What `compare` and `retry_` hold after a run that began at start-up. */
  ghost predicate Tracks(f: Filter, keys: seq<Value>) {
    if keys == [] then f == START
    else Text(f.compare) == keys[|keys| - 1] && f.retry == (TrailingRun(keys) - 1) % 256
  }

  lemma TrailingRunPositive<T>(s: seq<T>)
    requires s != []
    ensures TrailingRun(s) > 0
  {
  }

  lemma KeyStepTracks(f: Filter, keys: seq<Value>, key: Value)
    requires Tracks(f, keys) && key.Text? && key.s != ""
    ensures Tracks(KeyStep(f, Some(key)), keys + [key])
    ensures PassesKey(f, Some(key)) <==> keys == [] || keys[|keys| - 1] != key
  {
    var keys' := keys + [key];
    assert keys'[..|keys|] == keys;
    if keys != [] {
      TrailingRunPositive(keys);
      NextModulo(TrailingRun(keys) - 1);
    }
  }

  lemma StepTracks(f: Filter, keys: seq<Value>, msg: string)
    requires Tracks(f, keys)
    ensures var key := NodeKey(msg);
            && Tracks(FilterStep(f, msg), if key.Some? then keys + [key.value] else keys)
            && (Passes(f, msg) <==> key.Some? && (keys == [] || keys[|keys| - 1] != key.value))
  {
    KeyIsMac(msg);
    if NodeKey(msg).Some? {
      KeyStepTracks(f, keys, NodeKey(msg).value);
    }
  }

  lemma NextModulo(x: nat)
    ensures (x % 256 + 1) % 256 == (x + 1) % 256
  {
  }

  /** Over every run: the filter's two variables are the last node ID and the length of
      the current run of duplicates, modulo 256. */
  lemma {:induction false} FilterTracksRun(msgs: seq<string>)
    ensures Tracks(FilterRun(START, msgs), Keys(msgs))
  {
    if msgs != [] {
      var before := msgs[..|msgs| - 1];
      FilterTracksRun(before);
      StepTracks(FilterRun(START, before), Keys(before), msgs[|msgs| - 1]);
      assert Keys(before) + [] == Keys(before);
    }
  }

  /** Over every run: the node IDs that pass are the node IDs received, with adjacent
      duplicates removed. */
  lemma {:induction false} FilterIsDedup(msgs: seq<string>)
    ensures Keys(Passed(START, msgs)) == Dedup(Keys(msgs))
  {
    if msgs != [] {
      var before, last := msgs[..|msgs| - 1], msgs[|msgs| - 1];
      FilterIsDedup(before);
      FilterTracksRun(before);
      assert msgs == before + [last];
      PassedSnoc(START, before, last);
      KeysSnoc(before, last);
      KeysOfPassed(FilterRun(START, before), Keys(before), Passed(START, before), last);
    }
  }

  lemma PassedSnoc(f: Filter, msgs: seq<string>, last: string)
    ensures Passed(f, msgs + [last]) == Passed(f, msgs) + (if Passes(FilterRun(f, msgs), last) then [last] else [])
  {
    assert (msgs + [last])[..|msgs|] == msgs;
  }

  lemma KeysOfPassed(f: Filter, keys: seq<Value>, p: seq<string>, last: string)
    requires Tracks(f, keys) && Keys(p) == Dedup(keys)
    ensures Keys(p + (if Passes(f, last) then [last] else [])) == Dedup(keys + Maybe(NodeKey(last)))
  {
    StepTracks(f, keys, last);
    DedupStep(keys, NodeKey(last), Passes(f, last));
    if Passes(f, last) {
      KeysSnoc(p, last);
    } else {
      assert p + [] == p;
    }
  }

  /** One more key, or none. */
  function Maybe<T>(x: Option<T>): seq<T> {
    if x.Some? then [x.value] else []
  }

  lemma DedupStep(keys: seq<Value>, key: Option<Value>, passes: bool)
    requires passes <==> key.Some? && (keys == [] || keys[|keys| - 1] != key.value)
    ensures Dedup(keys + Maybe(key)) == if passes then Dedup(keys) + Maybe(key) else Dedup(keys)
  {
    var t := keys + Maybe(key);
    if key.None? {
      assert t == keys;
    } else {
      assert t[..|t| - 1] == keys && t[|t| - 1] == key.value;
      if keys == [] {
        assert t == [key.value];
      } else {
        assert t[|t| - 2] == keys[|keys| - 1];
        DedupLast(t, keys);
      }
    }
  }

  /** The last element, which is the first of its run or not. */
  lemma DedupLast<T>(t: seq<T>, s: seq<T>)
    requires |t| >= 2 && s == t[..|t| - 1]
    ensures t[|t| - 2] == t[|t| - 1] ==> Dedup(t) == Dedup(s)
    ensures t[|t| - 2] != t[|t| - 1] ==> Dedup(t) == Dedup(s) + [t[|t| - 1]]
  {
    var d := Dedup(s);
    assert d + [] == d;
  }

  lemma KeysSnoc(msgs: seq<string>, last: string)
    ensures Keys(msgs + [last]) == Keys(msgs) + Maybe(NodeKey(last))
  {
    assert (msgs + [last])[..|msgs|] == msgs;
  }

  lemma {:induction false} DedupEnds<T>(s: seq<T>)
    ensures s != [] ==> Dedup(s) != [] && Dedup(s)[|Dedup(s)| - 1] == s[|s| - 1]
  {
    if |s| > 1 {
      DedupEnds(s[..|s| - 1]);
    }
  }

  /** In particular no two messages in a row that pass come from the same node. */
  lemma {:induction false} DedupHasNoAdjacentDuplicates<T>(s: seq<T>)
    ensures forall i :: 0 < i < |Dedup(s)| ==> Dedup(s)[i - 1] != Dedup(s)[i]
  {
    if |s| > 1 {
      var t := s[..|s| - 1];
      DedupHasNoAdjacentDuplicates(t);
      DedupEnds(t);
    }
  }

  // ----- the filter and the ring together

  /** A node report, a frame of the lamp's own (the minute report and the requested one), or
      an uplink. */
  datatype Event = Report(msg: string) | Own(frame: string) | Uplink

  /** What the events ask of the ring; the lamp's own frames are not filtered. */
  function QueueOps(f: Filter, events: seq<Event>): seq<MQ.Op>
    decreases |events|
  {
    if events == [] then []
    else match events[0]
      case Report(msg) =>
        (if Passes(f, msg) then [MQ.Enqueue(msg)] else []) + QueueOps(FilterStep(f, msg), events[1..])
      case Own(frame) => [MQ.Enqueue(frame)] + QueueOps(f, events[1..])
      case Uplink => [MQ.Dequeue] + QueueOps(f, events[1..])
  }

  function Reports(events: seq<Event>): seq<string> {
    if events == [] then []
    else (if events[0].Report? then [events[0].msg] else []) + Reports(events[1..])
  }

  function OwnFrames(events: seq<Event>): seq<string> {
    if events == [] then []
    else (if events[0].Own? then [events[0].frame] else []) + OwnFrames(events[1..])
  }

  /** A message handed to `enqueue`, with its writer. */
  datatype Offer = FromNode(text: string) | FromLamp(text: string)

  function Offered(f: Filter, events: seq<Event>): seq<Offer>
    decreases |events|
  {
    if events == [] then []
    else match events[0]
      case Report(msg) => (if Passes(f, msg) then [FromNode(msg)] else []) + Offered(FilterStep(f, msg), events[1..])
      case Own(frame) => [FromLamp(frame)] + Offered(f, events[1..])
      case Uplink => Offered(f, events[1..])
  }

  function Texts(offers: seq<Offer>): seq<string> {
    seq(|offers|, i requires 0 <= i < |offers| => offers[i].text)
  }

  function NodeTexts(offers: seq<Offer>): seq<string> {
    if offers == [] then []
    else (if offers[0].FromNode? then [offers[0].text] else []) + NodeTexts(offers[1..])
  }

  function LampTexts(offers: seq<Offer>): seq<string> {
    if offers == [] then []
    else (if offers[0].FromLamp? then [offers[0].text] else []) + LampTexts(offers[1..])
  }

  function EnqueueItems(ops: seq<MQ.Op>): seq<string> {
    if ops == [] then [] else (if ops[0].Enqueue? then [ops[0].item] else []) + EnqueueItems(ops[1..])
  }

  lemma {:induction false} EnqueueItemsCons(op: MQ.Op, ops: seq<MQ.Op>)
    ensures EnqueueItems([op] + ops) == (if op.Enqueue? then [op.item] else []) + EnqueueItems(ops)
  {
    assert ([op] + ops)[1..] == ops;
  }

  lemma {:induction false} PassedCons(f: Filter, msg: string, msgs: seq<string>)
    ensures Passed(f, [msg] + msgs) == (if Passes(f, msg) then [msg] else []) + Passed(FilterStep(f, msg), msgs)
    ensures FilterRun(f, [msg] + msgs) == FilterRun(FilterStep(f, msg), msgs)
    decreases |msgs|
  {
    var all := [msg] + msgs;
    if msgs == [] {
      assert all[..0] == [] && all == [msg];
    } else {
      var before := msgs[..|msgs| - 1];
      assert all[..|all| - 1] == [msg] + before;
      PassedCons(f, msg, before);
    }
  }

  lemma OfferCons(o: Offer, offers: seq<Offer>)
    ensures Texts([o] + offers) == [o.text] + Texts(offers)
    ensures NodeTexts([o] + offers) == (if o.FromNode? then [o.text] else []) + NodeTexts(offers)
    ensures LampTexts([o] + offers) == (if o.FromLamp? then [o.text] else []) + LampTexts(offers)
  {
    assert ([o] + offers)[1..] == offers;
  }

  /** The texts handed to `enqueue` are the offers in order: of the node reports exactly
      those that pass, and every frame of the lamp. */
  lemma {:induction false} OpsEnqueueWhatPasses(f: Filter, events: seq<Event>)
    ensures EnqueueItems(QueueOps(f, events)) == Texts(Offered(f, events))
    ensures NodeTexts(Offered(f, events)) == Passed(f, Reports(events))
    ensures LampTexts(Offered(f, events)) == OwnFrames(events)
    decreases |events|
  {
    if events != [] {
      var more := events[1..];
      match events[0]
      case Report(msg) => ReportOffered(f, msg, events, more);
      case Own(frame) =>
        OpsEnqueueWhatPasses(f, more);
        EnqueueItemsCons(MQ.Enqueue(frame), QueueOps(f, more));
        OfferCons(FromLamp(frame), Offered(f, more));
        NilPlus(Reports(more));
        NilPlus(NodeTexts(Offered(f, more)));
      case Uplink =>
        OpsEnqueueWhatPasses(f, more);
        EnqueueItemsCons(MQ.Dequeue, QueueOps(f, more));
        NilPlus(Reports(more));
        NilPlus(OwnFrames(more));
        NilPlus(EnqueueItems(QueueOps(f, more)));
    }
  }

  lemma ReportOffered(f: Filter, msg: string, events: seq<Event>, more: seq<Event>)
    requires events != [] && events[0] == Report(msg) && more == events[1..]
    ensures EnqueueItems(QueueOps(f, events)) == Texts(Offered(f, events))
    ensures NodeTexts(Offered(f, events)) == Passed(f, Reports(events))
    ensures LampTexts(Offered(f, events)) == OwnFrames(events)
    decreases |events|, 0
  {
    var f' := FilterStep(f, msg);
    OpsEnqueueWhatPasses(f', more);
    PassedCons(f, msg, Reports(more));
    NilPlus(OwnFrames(more));
    if Passes(f, msg) {
      EnqueueItemsCons(MQ.Enqueue(msg), QueueOps(f', more));
      OfferCons(FromNode(msg), Offered(f', more));
      NilPlus(LampTexts(Offered(f', more)));
    } else {
      NilPlus(QueueOps(f', more));
      NilPlus(Offered(f', more));
      NilPlus(Passed(f', Reports(more)));
    }
  }

  lemma NilPlus<T>(s: seq<T>)
    ensures [] + s == s
  {
  }

  predicate Subsequence<T(==)>(a: seq<T>, b: seq<T>) {
    if a == [] then true
    else if b == [] then false
    else if a[0] == b[0] && Subsequence(a[1..], b[1..]) then true
    else Subsequence(a, b[1..])
  }

  function CutAll(items: seq<string>): seq<string> {
    seq(|items|, i requires 0 <= i < |items| => MQ.Cut(items[i]))
  }

  lemma {:induction false} AcceptedIsSubsequence(cap: nat, c: seq<string>, ops: seq<MQ.Op>)
    ensures Subsequence(MQ.AcceptedItems(cap, c, ops), CutAll(EnqueueItems(ops)))
    decreases |ops|
  {
    if ops != [] {
      AcceptedIsSubsequence(cap, MQ.FifoStep(cap, c, ops[0]), ops[1..]);
      var acc := MQ.AcceptedItems(cap, MQ.FifoStep(cap, c, ops[0]), ops[1..]);
      var all := CutAll(EnqueueItems(ops));
      if ops[0].Enqueue? {
        assert all[1..] == CutAll(EnqueueItems(ops[1..]));
        assert ([MQ.Cut(ops[0].item)] + acc)[1..] == acc;
        assert [] + acc == acc;
      } else {
        assert [] + acc == acc && [] + EnqueueItems(ops[1..]) == EnqueueItems(ops[1..]);
      }
    }
  }

  /** From start-up, over every run of node reports, own frames and uplinks: what was
      delivered, followed by what is still queued, are the accepted messages in order, and
      these are a subsequence of the offers, cut to the slot size, which are the reports
      without adjacent duplicates and all own frames. */
  lemma DeliveryOfReports(cap: nat, events: seq<Event>)
    ensures var ops, offers := QueueOps(START, events), Offered(START, events);
            var delivered := MQ.Delivered(MQ.FifoOutputs(cap, [], ops));
            var accepted := MQ.AcceptedItems(cap, [], ops);
            && delivered + MQ.FifoRun(cap, [], ops) == accepted
            && Subsequence(accepted, CutAll(Texts(offers)))
            && NodeTexts(offers) == Passed(START, Reports(events)) && LampTexts(offers) == OwnFrames(events)
  {
    var ops := QueueOps(START, events);
    MQ.Conservation(cap, [], ops);
    NilPlus(MQ.AcceptedItems(cap, [], ops));
    OpsEnqueueWhatPasses(START, events);
    AcceptedIsSubsequence(cap, [], ops);
  }

  // ----- the filter in place

  class NodeReporter {
    var nodeIdCompare: string
    var retry: nat
    const queue: MQ.MsgQueue

    constructor (queue: MQ.MsgQueue)
      ensures this.queue == queue && Abs() == START
    {
      this.queue := queue;
      nodeIdCompare, retry := "", 0;
    }

    function Abs(): Filter
      reads this
    {
      Filter(nodeIdCompare, retry)
    }

    method AddQueueLppNode(nodeInfo: string)
      requires queue.Valid() && |nodeInfo| / 2 <= 50 && retry < 256
      modifies this, queue`rear, queue`size, queue.slots
      ensures queue.Valid() && retry < 256
      ensures Abs() == FilterStep(old(Abs()), nodeInfo)
      ensures queue.Abs() ==
              if Passes(old(Abs()), nodeInfo) then MQ.Enqueued(old(queue.Abs()), nodeInfo) else old(queue.Abs())
    {
      KeyIsMac(nodeInfo);
      var nodeId := DecodeNodeId(nodeInfo);
      if nodeId.Some? {
        var text := nodeId.value.s;
        if text == nodeIdCompare {
          retry := (retry + 1) % 256;
        } else {
          if retry > 10 {
            retry := 0;
            nodeIdCompare := text;
          } else {
            retry := 0;
            nodeIdCompare := text;
          }
          queue.EnqueueMsg(nodeInfo);
        }
      }
    }
  }

  /** The decoding half of `add_queue_lpp_node`. */
  method DecodeNodeId(nodeInfo: string) returns (nodeId: Option<Value>)
    requires |nodeInfo| / 2 <= 50
    ensures nodeId == NodeKey(nodeInfo)
  {
    if nodeInfo == "" {
      assert ReadHex("") == [];
      return None;
    }
    var _, payload := DecodeText(nodeInfo);
    nodeId := Lookup(payload, "nodeid");
  }
}
