/** A body whose length the header announces. */
module HttpLengths {
  import opened Bytes
  import opened HttpScanner
  import opened HttpMessage
  import opened HttpFragments
  import opened HttpChunks

  /** After the header text: a body of n octets follows, none of it is there yet. */
  ghost predicate LengthAnnounced(s: State, n: nat) {
    Inv(s) && s.mode == UsingClen && s.contentLength == n && s.rest == []
    && s.position == (if n == 0 then PosComplete else PosEntity) && (n == 0 ==> s.entityLength == 0)
  }

  /** With n octets or more the body is complete: the first n of them. */
  lemma EnoughIsComplete(s: State, data: seq<Byte>, surplus: seq<Byte>)
    requires LengthAnnounced(s, |data|) && data != []
    ensures Append(s, data + surplus).status == Success && Body(Append(s, data + surplus).s) == data
  {
    hide MatchFormat;
    var t := Extend(s, data + surplus).(mark := |s.head|);
    assert t.rest == data + surplus && Step(t) == StepClen(t);
    var u := Step(t).s;
    assert u.rest[..|data|] == data;
    SliceOfBoth(u.head, u.rest, data);
  }

  /** The first octet of the surplus is zeroed. */
  lemma SurplusStays(s: State, data: seq<Byte>, surplus: seq<Byte>)
    requires LengthAnnounced(s, |data|) && data != []
    ensures Append(s, data + surplus).s.rest == data + (if surplus == [] then [] else [0] + surplus[1..])
  {
    hide MatchFormat;
    var t := Extend(s, data + surplus).(mark := |s.head|);
    assert t.rest == data + surplus && Step(t) == StepClen(t);
    if surplus != [] {
      ZeroFirst(data, surplus);
    }
  }

  lemma ZeroFirst(data: seq<Byte>, surplus: seq<Byte>)
    requires surplus != []
    ensures (data + surplus)[|data| := 0] == data + ([0] + surplus[1..])
  {
  }

  lemma SliceOfBoth(head: seq<Byte>, rest: seq<Byte>, data: seq<Byte>)
    requires |data| <= |rest| && rest[..|data|] == data
    ensures (head + rest)[|head|..|head| + |data|] == data
  {
  }

  /** With fewer the parser waits, and the entity is what has arrived. */
  lemma FewerIsIncomplete(s: State, n: nat, first: seq<Byte>)
    requires LengthAnnounced(s, n) && |first| < n
    ensures Append(s, first).status == Incomplete && Body(Append(s, first).s) == first
  {
    hide MatchFormat;
    var t := Extend(s, first).(mark := |s.head|);
    assert t.rest == first && Step(t) == StepClen(t);
    var u := Step(t).s;
    assert u.rest[..|first|] == first;
    SliceOfBoth(u.head, u.rest, first);
  }

  /** End to end: header text that announces |data| octets, then the data and any
      surplus, arriving in any pieces, gives exactly the data. */
  lemma LengthResponseInPieces(
      requestMethod: Method, headers: seq<Byte>, data: seq<Byte>, surplus: seq<Byte>, pieces: seq<seq<Byte>>)
    requires LengthAnnounced(Append(Fresh(requestMethod), headers).s, |data|)
    requires Append(Fresh(requestMethod), headers).status == if data == [] then Success else Incomplete
    requires pieces != [] && Concat(pieces) == headers + (data + surplus)
    ensures var seen := Observe(Feed(Fresh(requestMethod), pieces));
            seen.status == Success && seen.body == data
  {
    hide Run, Step, Feed, Observe, Fresh, Inv;
    FreshInv(requestMethod);
    FragmentationIndependence(requestMethod, pieces);
    var h := Append(Fresh(requestMethod), headers);
    if data == [] {
      AppendAfterEnd(Fresh(requestMethod), headers, data + surplus);
      ObservedSuccess(h);
    } else {
      AppendTwice(Fresh(requestMethod), headers, data + surplus);
      EnoughIsComplete(h.s, data, surplus);
      ObservedSuccess(Append(h.s, data + surplus));
    }
  }

  /** Octets in the same append behind the end of a response are not looked at. */
  lemma AppendAfterEnd(s: State, a: seq<Byte>, b: seq<Byte>)
    requires Inv(s) && !Waiting(Append(s, a).status)
    ensures Observe(Append(s, a + b)) == Observe(Append(s, a))
  {
    hide Run, Step, Observe, Normal;
    var first := Extend(s, a).(mark := |s.head|);
    ExtendInv(s, a);
    RunExtends(first, b);
    assert s.rest + a + b == s.rest + (a + b);
    assert Extend(first, b) == Extend(s, a + b).(mark := |s.head|);
  }

  /** Those of a later append make it fail, and leave the entity alone. */
  lemma LaterAppendFails(s: State, a: seq<Byte>, b: seq<Byte>)
    requires Inv(s) && Append(s, a).status == Success
    ensures var t := Append(s, a).s;
            && Append(t, b).status == Failure
            && Body(Append(t, b).s) == Body(t) && Append(t, b).s.message == t.message
  {
    hide Step, Inv;
    ExtendInv(s, a);
    var first := Extend(s, a).(mark := |s.head|);
    SuccessIsComplete(first);
    RunInv(first);
    var t := Run(first).s;
    hide Run;
    CompleteBody(t, b);
  }

  lemma {:induction false} SuccessIsComplete(s: State)
    requires Run(s).status == Success
    ensures Run(s).s.position == PosComplete
    decreases Rank(s), |s.rest|
  {
    hide Step;
    if GoesOn(Step(s).status) {
      StepProgress(s);
      SuccessIsComplete(Step(s).s);
    } else {
      StepSuccess(s);
    }
  }

  lemma StepSuccess(s: State)
    requires Step(s).status == Success
    ensures Step(s).s.position == PosComplete
  {
    hide MatchFormat, NextToken, ParseStatusLine, SkipBlankLines, LowerTransferEncoding, IsChunkedTransfer;
  }

  lemma CompleteBody(t: State, b: seq<Byte>)
    requires t.position == PosComplete && Inv(t)
    ensures Append(t, b).status == Failure && Append(t, b).s.message == t.message
    ensures Body(Append(t, b).s) == Body(t)
  {
    var (msg, end) := (t.head + t.rest, t.entityStart + t.entityLength);
    assert t.head + (t.rest + b) == msg + b;
    assert (msg + b)[t.entityStart..end] == msg[t.entityStart..end];
  }
}
