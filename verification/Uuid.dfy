/** upnp/src/uuid/uuid.c: version 1 UUIDs from a clock that may repeat readings or
    go backwards. */
module Uuid {
  import opened Bytes
  import opened Wrappers

  type U64 = x: int | 0 <= x < 0x1_0000_0000_0000_0000
  type U16 = x: int | 0 <= x < 0x1_0000
  type Node = s: seq<Byte> | |s| == 6 witness [0, 0, 0, 0, 0, 0]

  const UUIDS_PER_TICK := 1024

  /** The packed fields of a uuid_upnp. */
  datatype Uuid = Uuid(timeLow: int, timeMid: int, timeHiAndVersion: int, clockSeqHi: int, clockSeqLow: int, node: Node)

  /** uuid_state */
  datatype Saved = Saved(cs: U16, ts: U64, node: Node)

  /** The static variables. `wraps` counts how often the clock sequence went from
      2^16 - 1 to 0; no decision looks at it. */
  datatype Statics = Statics(
    timeLast: U64, uuidsThisTick: U16, inited: bool, savedNode: Option<Node>, st: Option<Saved>, wraps: nat)

  const START := Statics(0, 0, false, None, None, 0)

  // ----- the functions

  /** get_current_time on the readings of the clock to come: the timestamp, and the
      readings it left. None: all were used up and it still spins. */
  function CurrentTime(s: Statics, readings: seq<U64>): (Statics, Option<U64>, seq<U64>)
    decreases |readings|
  {
    var t := if s.inited then s else s.(uuidsThisTick := UUIDS_PER_TICK, inited := true);
    if readings == [] then (t, None, [])
    else if t.timeLast != readings[0] then Stamp(t.(uuidsThisTick := 0), readings)
    else if t.uuidsThisTick < UUIDS_PER_TICK then Stamp(t.(uuidsThisTick := t.uuidsThisTick + 1), readings)
    else CurrentTime(t, readings[1..])
  }

  function Stamp(t: Statics, readings: seq<U64>): (Statics, Option<U64>, seq<U64>)
    requires readings != []
  {
    var ts := (readings[0] + t.uuidsThisTick) % 0x1_0000_0000_0000_0000;
    (t.(timeLast := ts), Some(ts), readings[1..])
  }

  /** format_uuid_v1 */
  function Format(cs: U16, ts: U64, node: Node): Uuid {
    Uuid(ts % 0x1_0000_0000,
         ts / 0x1_0000_0000 % 0x1_0000,
         ts / 0x1_0000_0000_0000 % 0x1000 + 0x1000,
         cs / 0x100 % 0x40 + 0x80,
         cs % 0x100,
         node)
  }

  /** The clock sequence that uuid_create uses for a timestamp. */
  function ClockSeq(st: Option<Saved>, node: Node, ts: U64, random: U16): U16 {
    if st.None? || st.value.node != node then random
    else if ts < st.value.ts then (st.value.cs + 1) % 0x1_0000
    else st.value.cs
  }

  /** What one call reads from outside. */
  datatype Inputs = Inputs(readings: seq<U64>, node: Node, random: U16)

  /** uuid_create; no UUID while it still spins. */
  function Create(s: Statics, x: Inputs): (Statics, Option<Uuid>) {
    var (t, now, _) := CurrentTime(s, x.readings);
    if now.None? then (t, None)
    else
      var node := if t.savedNode.Some? then t.savedNode.value else x.node;
      var cs := ClockSeq(t.st, node, now.value, x.random);
      var wrapped := t.st.Some? && t.st.value.node == node && now.value < t.st.value.ts && t.st.value.cs == 0xffff;
      (t.(savedNode := Some(node), st := Some(Saved(cs, now.value, node)),
          wraps := t.wraps + (if wrapped then 1 else 0)),
       Some(Format(cs, now.value, node)))
  }

  // ----- the generator

  class Generator {
    var timeLast: U64
    var uuidsThisTick: U16
    var inited: bool
    var savedNode: Option<Node>
    var st: Option<Saved>
    ghost var wraps: nat

    ghost function View(): Statics
      reads this
    {
      Statics(timeLast, uuidsThisTick, inited, savedNode, st, wraps)
    }

    constructor ()
      ensures View() == START
    {
      timeLast, uuidsThisTick, inited, savedNode, st, wraps := 0, 0, false, None, None, 0;
    }

    /** get_current_time; `left` is the rest of the readings. */
    method GetCurrentTime(readings: seq<U64>) returns (timestamp: Option<U64>, left: seq<U64>)
      modifies `timeLast, `uuidsThisTick, `inited
      ensures (View(), timestamp, left) == CurrentTime(old(View()), readings)
      ensures Reads(old(View()), readings, View(), timestamp, left)
    {
      CurrentTimeReads(View(), readings);
      ghost var all := CurrentTime(View(), readings);
      if !inited {
        uuidsThisTick := UUIDS_PER_TICK;
        inited := true;
      }
      left := readings;
      while left != []
        invariant inited && all == CurrentTime(View(), left)
        decreases |left|
      {
        var timeNow := left[0];
        left := left[1..];
        if timeLast != timeNow {
          uuidsThisTick := 0;
        } else if uuidsThisTick < UUIDS_PER_TICK {
          uuidsThisTick := uuidsThisTick + 1;
        } else {
          continue;
        }
        var ts := (timeNow + uuidsThisTick) % 0x1_0000_0000_0000_0000;
        timeLast := ts;
        return Some(ts), left;
      }
      timestamp := None;
    }

    method UuidCreate(x: Inputs) returns (uid: Option<Uuid>)
      modifies this
      ensures (View(), uid) == Create(old(View()), x)
      ensures uid.Some? ==> st.Some? && Carries(uid.value, st.value.cs, st.value.ts, st.value.node)
      ensures uid.Some? ==> st.value.node == (if old(savedNode).Some? then old(savedNode).value else x.node)
      ensures uid.Some? ==> st.value.ts == timeLast
      ensures uid.Some? ==>
                if old(st).None? || old(st).value.node != st.value.node then st.value.cs == x.random
                else if st.value.ts < old(st).value.ts then st.value.cs == (old(st).value.cs + 1) % 0x1_0000
                else st.value.cs == old(st).value.cs
    {
      hide CurrentTime, Format, Carries, Reads;
      var timestamp, _ := GetCurrentTime(x.readings);
      if timestamp.None? {
        return None;
      }
      var ts := timestamp.value;
      if savedNode.None? {
        savedNode := Some(x.node);
      }
      var node := savedNode.value;
      var cs: int;
      if st.None? || st.value.node != node {
        cs := x.random;
      } else {
        cs := st.value.cs;
        if ts < st.value.ts {
          wraps := wraps + (if cs == 0xffff then 1 else 0);
          cs := (cs + 1) % 0x1_0000;
        }
      }
      FormatCarries(cs, ts, node);
      uid := Some(Format(cs, ts, node));
      st := Some(Saved(cs, ts, node));
    }
  }

  // ----- what is read from the clock

  /** What get_current_time made of the readings: those it left out repeat the last
      timestamp when no more can be given out for it; to the one it takes, it adds how
      many were given out for it before. */
  ghost predicate Reads(s: Statics, readings: seq<U64>, t: Statics, now: Option<U64>, left: seq<U64>) {
    var room := s.inited && s.uuidsThisTick < 1024;
    && |left| <= |readings| && left == readings[|readings| - |left|..]
    && match now
       case None => left == [] && (forall k :: 0 <= k < |readings| ==> readings[k] == s.timeLast)
                    && (readings != [] ==> !room)
       case Some(ts) =>
         |left| < |readings| &&
         var k := |readings| - |left| - 1;
         && (forall i :: 0 <= i < k ==> readings[i] == s.timeLast) && (k > 0 ==> !room)
         && t.timeLast == ts == (readings[k] + t.uuidsThisTick) % 0x1_0000_0000_0000_0000
         && if readings[k] == s.timeLast then room && t.uuidsThisTick == s.uuidsThisTick + 1 else t.uuidsThisTick == 0
  }

  lemma {:induction false} CurrentTimeReads(s: Statics, readings: seq<U64>)
    ensures var (t, now, left) := CurrentTime(s, readings); Reads(s, readings, t, now, left)
    decreases |readings|
  {
    var t := if s.inited then s else s.(uuidsThisTick := UUIDS_PER_TICK, inited := true);
    if readings != [] && t.timeLast == readings[0] && t.uuidsThisTick >= UUIDS_PER_TICK {
      CurrentTimeReads(t, readings[1..]);
    }
  }

  // ----- the layout

  /** The fields of a UUID of version 1 and of the variant of RFC 4122 (sections 4.1.1
      to 4.1.5), read back as numbers: timestamp, clock sequence and node. */
  ghost predicate Carries(u: Uuid, cs: U16, ts: U64, node: Node) {
    && 0 <= u.timeLow < 0x1_0000_0000 && 0 <= u.timeMid < 0x1_0000 && 0 <= u.timeHiAndVersion < 0x1_0000
    && 0 <= u.clockSeqHi < 0x100 && 0 <= u.clockSeqLow < 0x100
    && u.timeHiAndVersion / 0x1000 == 1 && u.clockSeqHi / 0x40 == 2
    && u.timeLow + 0x1_0000_0000 * u.timeMid + 0x1_0000_0000_0000 * (u.timeHiAndVersion % 0x1000)
       == ts % 0x1000_0000_0000_0000
    && u.clockSeqHi % 0x40 * 0x100 + u.clockSeqLow == cs % 0x4000
    && u.node == node
  }

  lemma FormatCarries(cs: U16, ts: U64, node: Node)
    ensures Carries(Format(cs, ts, node), cs, ts, node)
  {
    TimeFields(ts);
    SeqFields(cs);
  }

  /** RFC 4122, section 4.1.2: the packed fields determine the timestamp modulo 2^60,
      the clock sequence modulo 2^14 and the node, and nothing else. */
  lemma FormatDetermines(cs: U16, ts: U64, node: Node, cs': U16, ts': U64, node': Node)
    ensures Format(cs, ts, node) == Format(cs', ts', node') <==>
            ts % 0x1000_0000_0000_0000 == ts' % 0x1000_0000_0000_0000 && cs % 0x4000 == cs' % 0x4000 && node == node'
  {
    TimeFields(ts);
    TimeFields(ts');
    SeqFields(cs);
    SeqFields(cs');
    DigitsDetermine(ts % 0x1_0000_0000, ts / 0x1_0000_0000 % 0x1_0000, ts / 0x1_0000_0000_0000 % 0x1000,
                    ts' % 0x1_0000_0000, ts' / 0x1_0000_0000 % 0x1_0000, ts' / 0x1_0000_0000_0000 % 0x1000);
    SeqDigitsDetermine(cs % 0x100, cs / 0x100 % 0x40, cs' % 0x100, cs' / 0x100 % 0x40);
  }

  lemma DigitsDetermine(a: nat, b: nat, c: nat, a': nat, b': nat, c': nat)
    requires a < 0x1_0000_0000 && b < 0x1_0000 && a' < 0x1_0000_0000 && b' < 0x1_0000
    ensures a + 0x1_0000_0000 * b + 0x1_0000_0000_0000 * c == a' + 0x1_0000_0000 * b' + 0x1_0000_0000_0000 * c'
            <==> a == a' && b == b' && c == c'
  {
  }

  lemma SeqDigitsDetermine(a: nat, b: nat, a': nat, b': nat)
    requires a < 0x100 && a' < 0x100
    ensures a + 0x100 * b == a' + 0x100 * b' <==> a == a' && b == b'
  {
  }

  lemma SeqFields(cs: U16)
    ensures cs % 0x4000 == cs % 0x100 + 0x100 * (cs / 0x100 % 0x40)
  {
  }

  lemma TimeFields(ts: U64)
    ensures ts % 0x1000_0000_0000_0000 ==
            ts % 0x1_0000_0000 + 0x1_0000_0000 * (ts / 0x1_0000_0000 % 0x1_0000)
            + 0x1_0000_0000_0000 * (ts / 0x1_0000_0000_0000 % 0x1000)
  {
    var (low, mid, high) := (ts % 0x1_0000_0000, ts / 0x1_0000_0000 % 0x1_0000, ts / 0x1_0000_0000_0000 % 0x1000);
    assert ts / 0x1_0000_0000 == mid + 0x1_0000 * (ts / 0x1_0000_0000_0000);
    assert ts == low + 0x1_0000_0000 * mid + 0x1_0000_0000_0000 * (high + 0x1000 * (ts / 0x1000_0000_0000_0000));
  }

  // ----- the clock

  /** The count never exceeds UUIDS_PER_TICK, and the saved timestamp is the one
      the next call compares its readings with. */
  ghost predicate Inv(s: Statics) {
    && s.uuidsThisTick <= UUIDS_PER_TICK
    && (s.st.Some? ==> s.inited && s.st.value.ts == s.timeLast && s.savedNode == Some(s.st.value.node))
  }

  /** Whatever the clock says, a timestamp differs from the one before it. */
  lemma {:induction false} TimestampsChange(s: Statics, readings: seq<U64>)
    requires Inv(s)
    ensures var (t, now, left) := CurrentTime(s, readings);
            && t.uuidsThisTick <= UUIDS_PER_TICK && t.inited
            && (now.Some? ==> now.value != s.timeLast && t.timeLast == now.value)
            && (now.None? ==> t.timeLast == s.timeLast)
            && t == s.(timeLast := t.timeLast, uuidsThisTick := t.uuidsThisTick, inited := true)
    decreases |readings|
  {
    var t := if s.inited then s else s.(uuidsThisTick := UUIDS_PER_TICK, inited := true);
    if readings != [] && t.timeLast == readings[0] && t.uuidsThisTick == UUIDS_PER_TICK {
      TimestampsChange(t, readings[1..]);
    }
  }

  // ----- uniqueness

  /** The clock sequence as it would be without wrapping around. */
  function Unwrapped(s: Statics): nat
    requires s.st.Some?
  {
    s.st.value.cs + 0x1_0000 * s.wraps
  }

  /** One UUID, and where it came from. */
  datatype Entry = Entry(seqNo: nat, ts: U64, uid: Uuid)

  function History(s: Statics, xs: seq<Inputs>): seq<Entry>
    decreases |xs|
  {
    if xs == [] then []
    else
      var (t, uid) := Create(s, xs[0]);
      (if uid.Some? then [Entry(Unwrapped(t), t.st.value.ts, uid.value)] else []) + History(t, xs[1..])
  }

  predicate Less(seqNo: nat, ts: U64, e: Entry) {
    seqNo < e.seqNo || (seqNo == e.seqNo && ts < e.ts)
  }

  /** One call: the pair of clock sequence and timestamp grows. */
  lemma CreateGrows(s: Statics, x: Inputs)
    requires Inv(s)
    ensures var (t, uid) := Create(s, x);
            && Inv(t) && (uid.Some? ==> t.st.Some?)
            && (s.st.Some? && uid.Some? ==>
                  && t.savedNode == s.savedNode
                  && Less(Unwrapped(s), s.st.value.ts, Entry(Unwrapped(t), t.st.value.ts, uid.value)))
            && (uid.Some? ==> uid.value == Format(t.st.value.cs, t.st.value.ts, t.st.value.node))
            && (uid.None? ==> t.st == s.st && t.savedNode == s.savedNode && t.wraps == s.wraps)
  {
    TimestampsChange(s, x.readings);
    hide CurrentTime, Format;
    var (c, now, left) := CurrentTime(s, x.readings);
    var (t, uid) := Create(s, x);
    assert now.None? ==> t == c && uid.None?;
  }

  /** The entries after a state all come later than it, and carry its node. */
  lemma {:induction false} HistoryGrows(s: Statics, xs: seq<Inputs>)
    requires Inv(s)
    ensures Growing(History(s, xs))
    ensures s.st.Some? ==> After(History(s, xs), Unwrapped(s), s.st.value.ts, s.st.value.node)
    decreases |xs|
  {
    hide Create, Format;
    if xs == [] {
      assert Formatted([], [0, 0, 0, 0, 0, 0]);
    } else {
      CreateGrows(s, xs[0]);
      var (t, uid) := Create(s, xs[0]);
      HistoryGrows(t, xs[1..]);
      if uid.Some? {
        assert Unwrapped(t) % 0x1_0000 == t.st.value.cs;
        var e := Entry(Unwrapped(t), t.st.value.ts, uid.value);
        var rest := History(t, xs[1..]);
        assert History(s, xs) == [e] + rest;
        assert Formatted([e] + rest, t.st.value.node);
      } else {
        assert History(s, xs) == History(t, xs[1..]);
      }
    }
  }

  /** All entries come after the given pair and are formatted for the node. */
  ghost predicate After(es: seq<Entry>, seqNo: nat, ts: U64, node: Node) {
    Formatted(es, node) && forall i :: 0 <= i < |es| ==> Less(seqNo, ts, es[i])
  }

  ghost predicate Formatted(es: seq<Entry>, node: Node) {
    forall i :: 0 <= i < |es| ==> es[i].uid == Format(es[i].seqNo % 0x1_0000, es[i].ts, node)
  }

  /** The pairs grow strictly, and all entries are formatted for one node. */
  ghost predicate Growing(es: seq<Entry>) {
    && (forall i, j :: 0 <= i < j < |es| ==> Less(es[i].seqNo, es[i].ts, es[j]))
    && (exists node: Node :: Formatted(es, node))
  }

  /** Two UUIDs of one generator are equal exactly when their timestamps agree modulo
      2^60 and their clock sequences, without wrap-around, modulo 2^14. */
  lemma WhenUuidsCollide(xs: seq<Inputs>, i: nat, j: nat)
    requires i < j < |History(START, xs)|
    ensures var es := History(START, xs);
            && Less(es[i].seqNo, es[i].ts, es[j])
            && (es[i].uid == es[j].uid <==>
                  es[i].ts % 0x1000_0000_0000_0000 == es[j].ts % 0x1000_0000_0000_0000
                  && (es[j].seqNo - es[i].seqNo) % 0x4000 == 0)
  {
    HistoryGrows(START, xs);
    var es := History(START, xs);
    hide History;
    var node: Node :| Formatted(es, node);
    FormatDetermines(es[i].seqNo % 0x1_0000, es[i].ts, node, es[j].seqNo % 0x1_0000, es[j].ts, node);
    hide Format;
    SameResidue(es[i].seqNo, es[j].seqNo);
  }

  lemma SameResidue(a: nat, b: nat)
    ensures a % 0x1_0000 % 0x4000 == b % 0x1_0000 % 0x4000 <==> (b - a) % 0x4000 == 0
  {
    TwiceReduced(a);
    TwiceReduced(b);
    var (q, r) := (a / 0x4000, b / 0x4000);
    assert b - a == 0x4000 * (r - q) + (b % 0x4000 - a % 0x4000);
  }

  lemma TwiceReduced(a: nat)
    ensures a % 0x1_0000 % 0x4000 == a % 0x4000
  {
    assert a == 0x4000 * (4 * (a / 0x1_0000)) + a % 0x1_0000;
  }

  ghost predicate AllCarry(es: seq<Entry>, node: Node) {
    forall i :: 0 <= i < |es| ==> Carries(es[i].uid, es[i].seqNo % 0x1_0000, es[i].ts, node)
  }

  /** Every UUID of a run carries its timestamp, its clock sequence and one node. */
  lemma HistoryCarries(xs: seq<Inputs>)
    ensures exists node: Node :: AllCarry(History(START, xs), node)
  {
    HistoryGrows(START, xs);
    var es := History(START, xs);
    hide History, Carries;
    var node: Node :| Formatted(es, node);
    forall i | 0 <= i < |es| ensures Carries(es[i].uid, es[i].seqNo % 0x1_0000, es[i].ts, node) {
      FormatCarries(es[i].seqNo % 0x1_0000, es[i].ts, node);
    }
    assert AllCarry(es, node);
  }

  /** So they differ while fewer than 2^14 increments of the clock sequence separate
      them and the timestamps fit in 60 bits, whatever the clock did. */
  lemma UuidsAreUnique(xs: seq<Inputs>, i: nat, j: nat)
    requires i < j < |History(START, xs)|
    requires var es := History(START, xs);
             es[j].seqNo - es[i].seqNo < 0x4000 && es[i].ts < 0x1000_0000_0000_0000 && es[j].ts < 0x1000_0000_0000_0000
    ensures History(START, xs)[i].uid != History(START, xs)[j].uid
  {
    WhenUuidsCollide(xs, i, j);
  }
}
