/** The receive cache: a byte buffer that is scanned again after every receive and moved to its start
    (`source/fix/fix_receive_cache.cpp`). */
module ReceiveCaches {
  import opened Wrappers
  import opened Text
  import opened FixConstants
  import opened FixMessages
  import opened FixParsers
  import opened RoundTrip

  // ----- Scanning in pieces -----

  lemma {:induction false} MessagesGrow(s: Scan, text: string, after: char)
    ensures s.messages <= Go(s, text, after).messages
    decreases |text|
  {
    if text != "" {
      MessagesGrow(ScanChar(s, text[0], if |text| > 1 then text[1] else after), text[1..], after);
    }
  }

  /** Until a message is complete, everything is kept. */
  lemma {:induction false} NothingNew(s: Scan, text: string, after: char)
    requires !Go(s, text, after).failed && Go(s, text, after).messages == s.messages
    ensures Go(s, text, after).since == s.since + text
    decreases |text|
  {
    if text == "" {
      assert s.since + text == s.since;
    } else {
      var n := ScanChar(s, text[0], if |text| > 1 then text[1] else after);
      MessagesGrow(n, text[1..], after);
      if n.failed { GoFailed(n, text[1..], after); }
      NothingNew(n, text[1..], after);
      assert (s.since + [text[0]]) + text[1..] == s.since + text;
    }
  }

  /** Behind the last complete message the scanner is as good as new, whatever comes next. */
  lemma {:induction false} Boundary(s: Scan, text: string, after: char, x: char)
    requires !Go(s, text, after).failed && Go(s, text, after).messages != s.messages
    ensures var g := Go(s, text, after);
            |g.since| <= |text| && g.since == text[|text| - |g.since|..]
            && Go(s, text[..|text| - |g.since|], x) == START.(messages := g.messages)
    decreases |text|
  {
    var g := Go(s, text, after);
    var next := if |text| > 1 then text[1] else after;
    var n := ScanChar(s, text[0], next);
    if n.failed { GoFailed(n, text[1..], after); }
    if n.messages == g.messages {
      NothingNew(n, text[1..], after);
      assert n.since == "" && g.since == text[1..];
      assert text[..1] == [text[0]];
      assert Go(s, [text[0]], x) == ScanChar(s, text[0], x);
    } else {
      Boundary(n, text[1..], after, x);
      var p := text[1..][..|text| - 1 - |g.since|];
      assert text[..|text| - |g.since|] == [text[0]] + p;
      assert p != "" && p[0] == next;
      GoStep(s, text[0], p, x);
    }
  }

  /** Messages found before do not matter to what is found later. */
  lemma {:induction false} Prefixed(s: Scan, before: seq<Msg>, text: string, after: char)
    ensures Go(s.(messages := before + s.messages), text, after) ==
            Go(s, text, after).(messages := before + Go(s, text, after).messages)
    decreases |text|
  {
    if text != "" {
      var next := if |text| > 1 then text[1] else after;
      var n := ScanChar(s, text[0], next);
      PrefixedStep(s, before, text[0], next);
      Prefixed(n, before, text[1..], after);
    }
  }

  lemma PrefixedStep(s: Scan, before: seq<Msg>, c: char, next: char)
    ensures ScanChar(s.(messages := before + s.messages), c, next) ==
            ScanChar(s, c, next).(messages := before + ScanChar(s, c, next).messages)
  {
    forall h: Msg ensures (before + s.messages) + [h] == before + (s.messages + [h]) {}
  }

  /** Scanning can stop and go on from what was kept. */
  lemma Resume(t: string, u: string)
    requires !ScanAll(t).failed
    ensures var g := ScanAll(t);
            ScanAll(t + u) == ScanAll(g.since + u).(messages := g.messages + ScanAll(g.since + u).messages)
  {
    var g := ScanAll(t);
    if g.messages == [] {
      NothingNew(START, t, NOTHING);
      assert "" + t == t && [] + ScanAll(t + u).messages == ScanAll(t + u).messages;
    } else {
      var n := |t| - |g.since|;
      var rest := g.since + u;
      var x := if rest == "" then NOTHING else rest[0];
      Boundary(START, t, NOTHING, x);
      assert t + u == t[..n] + rest;
      GoConcat(START, t[..n], rest, NOTHING);
      Prefixed(START, g.messages, rest, NOTHING);
      assert g.messages + [] == g.messages;
    }
  }

  /** A failed scan stays failed. */
  lemma FailsOn(t: string, u: string)
    requires ScanAll(t).failed
    ensures ScanAll(t + u).failed
  {
    var x := if u == "" then NOTHING else u[0];
    GoConcat(START, t, u, NOTHING);
    LookaheadIrrelevant(START, t, NOTHING, x);
    GoFailed(Go(START, t, x), u, NOTHING);
  }

  // ----- What the cache keeps -----

  /** The content after a parse: everything, if no message was complete, else what follows the last one, but a
      single byte left over is dropped. */
  function Kept(t: string): string {
    var g := ScanAll(t);
    if g.messages == [] then t else if |g.since| > 1 then g.since else ""
  }

  /** The one remainder that matters. */
  predicate DropsStart(t: string) {
    ScanAll(t).messages != [] && ScanAll(t).since == "8"
  }

  /** A byte that cannot start a message is skipped at once. */
  lemma SkipByte(c: char, u: string)
    requires c != '8'
    ensures ScanAll([c] + u).messages == ScanAll(u).messages && ScanAll([c] + u).failed == ScanAll(u).failed
  {
    GoStep(START, c, u, NOTHING);
    assert "" + [c] == [c];
    SinceIrrelevant(START, [c], u, NOTHING);
  }

  lemma {:induction false} SinceIrrelevant(s: Scan, since: string, text: string, after: char)
    ensures Go(s.(since := since), text, after).messages == Go(s, text, after).messages
    ensures Go(s.(since := since), text, after).failed == Go(s, text, after).failed
    decreases |text|
  {
    if text != "" {
      var next := if |text| > 1 then text[1] else after;
      var n := ScanChar(s, text[0], next);
      var m := ScanChar(s.(since := since), text[0], next);
      assert m == n.(since := m.since);
      SinceIrrelevant(n, m.since, text[1..], after);
    }
  }

  /** Every parse but a harmful one changes nothing for the future. */
  lemma KeptResumes(t: string, u: string)
    requires !ScanAll(t).failed && !DropsStart(t)
    ensures ScanAll(t + u).messages == ScanAll(t).messages + ScanAll(Kept(t) + u).messages
    ensures ScanAll(t + u).failed == ScanAll(Kept(t) + u).failed
  {
    var g := ScanAll(t);
    Resume(t, u);
    if g.messages == [] {
      NothingNew(START, t, NOTHING);
      assert "" + t == t;
    } else if |g.since| == 1 {
      assert g.since == [g.since[0]] && "" + u == u;
      SkipByte(g.since[0], u);
    }
  }

  const LOST := "=1" + [FIX_DELIMITER] + "10=1" + [FIX_DELIMITER]

  /** The shortest message, anywhere in a stream. */
  const SHORTEST := "8" + LOST

  lemma LostText()
    ensures SHORTEST == Field(TAG_VERSION, "1") + Field(TAG_BODY_CHECKSUM, "1")
    ensures '8' !in LOST && SHORTEST[0] == '8' && SHORTEST[1] == FIX_EQUALS
  {
    TenIs();
    assert ToDec(TAG_VERSION) == "8";
  }

  lemma FoundMessage(messages: seq<Msg>, rest: string) returns (m: Msg)
    ensures Go(START.(messages := messages), SHORTEST + rest, NOTHING) ==
            Go(START.(messages := messages + [m]), rest, NOTHING)
  {
    LostText();
    StripPlain("1");
    var s := START.(messages := messages, started := true);
    var checksum := Field(TAG_BODY_CHECKSUM, "1") + rest;
    Started(messages, SHORTEST + rest);
    Associative(Field(TAG_VERSION, "1"), Field(TAG_BODY_CHECKSUM, "1"), rest);
    GoField(s, TAG_VERSION, "1", checksum, NOTHING);
    var t := s.(reader := Clean(WithTag(EMPTY, TAG_VERSION, "1")), since := s.since + Field(TAG_VERSION, "1"));
    GoCheckSum(t, "1", rest, NOTHING);
    HeaderWorks(WithTag(t.reader.msg, TAG_BODY_CHECKSUM, "1"));
    m := Header(WithTag(t.reader.msg, TAG_BODY_CHECKSUM, "1")).value;
  }

  lemma Started(messages: seq<Msg>, text: string)
    requires |text| > 1 && text[0] == '8' && text[1] == FIX_EQUALS
    ensures Go(START.(messages := messages), text, NOTHING) ==
            Go(START.(messages := messages, started := true), text, NOTHING)
  {
  }

  lemma HeaderWorks(m: Msg)
    requires TAG_SEQUENCE_NUMBER !in m.body
    ensures Header(m).Some?
  {
  }

  /** Without its '8' the message is not found. */
  lemma LostMessage()
    ensures |ScanAll(SHORTEST).messages| == 1 && ScanAll(LOST).messages == []
  {
    var m := FoundMessage([], "");
    assert SHORTEST + "" == SHORTEST;
    LostText();
    NeverStarts("", LOST, NOTHING);
  }

  lemma ShortestAndStart() returns (m: Msg)
    ensures ScanAll(SHORTEST + "8") == START.(messages := [m], since := "8")
  {
    m := FoundMessage([], "8");
    assert [] + [m] == [m] && "" + ['8'] == "8";
  }

  lemma ShortestTwice() returns (first: Msg, second: Msg)
    ensures ScanAll(SHORTEST + SHORTEST).messages == [first, second]
  {
    first := FoundMessage([], SHORTEST);
    second := FoundMessage([first], "");
    assert [] + [first] == [first] && [first] + [second] == [first, second] && SHORTEST + "" == SHORTEST;
  }

  /** A content at which a parse drops the byte that matters: behind one message stands the '8' of the next. Of the
      two messages in the stream, the second is lost. */
  lemma DroppedStart()
    ensures var t := SHORTEST + "8";
            && !ScanAll(t).failed && DropsStart(t) && Kept(t) == ""
            && |ScanAll(t).messages| == 1 && |ScanAll(t + LOST).messages| == 2
            && ScanAll(Kept(t) + LOST).messages == []
  {
    var m := ShortestAndStart();
    var first, second := ShortestTwice();
    StartAndLost();
    LostMessage();
    assert "" + LOST == LOST;
  }

  lemma StartAndLost()
    ensures (SHORTEST + "8") + LOST == SHORTEST + SHORTEST
  {
    Associative(SHORTEST, "8", LOST);
    assert "8" + LOST == SHORTEST;
  }

  lemma {:induction false} NeverStarts(since: string, text: string, after: char)
    requires '8' !in text
    ensures Go(START.(since := since), text, after).messages == []
    decreases |text|
  {
    if text != "" {
      NeverStarts(since + [text[0]], text[1..], after);
    }
  }

  /** The exact condition: a parse keeps enough for every future exactly when it does not drop an '8'. */
  lemma KeptExactly(t: string)
    requires !ScanAll(t).failed
    ensures (forall u :: ScanAll(t + u).messages == ScanAll(t).messages + ScanAll(Kept(t) + u).messages) <==>
            !DropsStart(t)
  {
    if !DropsStart(t) {
      forall u ensures ScanAll(t + u).messages == ScanAll(t).messages + ScanAll(Kept(t) + u).messages {
        KeptResumes(t, u);
      }
    } else {
      Resume(t, LOST);
      LostMessage();
      assert "" + LOST == LOST && "8" + LOST == SHORTEST;
      assert ScanAll(t + LOST).messages != ScanAll(t).messages + ScanAll(Kept(t) + LOST).messages;
    }
  }

  lemma WhatIsLeft(t: string)
    requires !ScanAll(t).failed
    ensures var g := ScanAll(t);
            && |g.since| <= |t| && g.since == t[|t| - |g.since|..]
            && (g.messages == [] ==> g.since == t) && (t == "" ==> g.messages == [])
  {
    SinceSuffix(START, t, NOTHING);
    assert "" + t == t;
    if ScanAll(t).messages == [] { NothingNew(START, t, NOTHING); }
  }

  // ----- Any sequence of receives -----

  function Flat(chunks: seq<string>): string {
    if chunks == [] then "" else chunks[0] + Flat(chunks[1..])
  }

  function Delivered(kept: string, chunks: seq<string>): seq<Msg>
    decreases |chunks|
  {
    if chunks == [] then []
    else ScanAll(kept + chunks[0]).messages + Delivered(Kept(kept + chunks[0]), chunks[1..])
  }

  function Left(kept: string, chunks: seq<string>): string
    decreases |chunks|
  {
    if chunks == [] then kept else Left(Kept(kept + chunks[0]), chunks[1..])
  }

  predicate Safe(kept: string, chunks: seq<string>)
    decreases |chunks|
  {
    chunks == [] || (!DropsStart(kept + chunks[0]) && Safe(Kept(kept + chunks[0]), chunks[1..]))
  }

  /** Chunking does not matter: what the parses deliver, and will deliver, is what one scan of the whole stream
      finds, provided no parse drops an '8'. */
  lemma {:induction false} ChunksDoNotMatter(kept: string, chunks: seq<string>, future: string)
    requires Safe(kept, chunks) && !ScanAll(kept + Flat(chunks)).failed
    ensures ScanAll((kept + Flat(chunks)) + future).messages ==
            Delivered(kept, chunks) + ScanAll(Left(kept, chunks) + future).messages
    decreases |chunks|
  {
    if chunks == [] {
      assert kept + "" == kept;
      assert [] + ScanAll(kept + future).messages == ScanAll(kept + future).messages;
    } else {
      var t, u := kept + chunks[0], Flat(chunks[1..]);
      Associative(kept, chunks[0], u);
      Associative(t, u, future);
      if ScanAll(t).failed { FailsOn(t, u); }
      KeptResumes(t, u);
      KeptResumes(t, u + future);
      ChunksDoNotMatter(Kept(t), chunks[1..], future);
      Associative(Kept(t), u, future);
      Associative(ScanAll(t).messages, Delivered(Kept(t), chunks[1..]),
                  ScanAll(Left(Kept(t), chunks[1..]) + future).messages);
    }
  }

  /** Every receive fits what is free in the cache. */
  predicate Fits(kept: string, chunks: seq<string>, capacity: nat)
    decreases |chunks|
  {
    chunks == [] || (|kept| + |chunks[0]| <= capacity && Fits(Kept(kept + chunks[0]), chunks[1..], capacity))
  }

  // ----- The object -----

  class FixReceiveCache {
    const buffer: array<char>
    var size: nat

    predicate Valid()
      reads this
    {
      size <= buffer.Length
    }

    function Content(): string
      requires Valid()
      reads this, buffer
    {
      buffer[..size]
    }

    constructor (capacity: nat)
      ensures Valid() && Content() == "" && buffer.Length == capacity && fresh(buffer)
    {
      buffer := new char[capacity];
      size := 0;
    }

    method IncrementSize(n: nat)
      requires size + n <= buffer.Length
      modifies this`size
      ensures Valid() && size == old(size) + n
    {
      size := size + n;
    }

    /** The socket writes behind the content, then the size is raised. */
    method Receive(data: string)
      requires Valid() && size + |data| <= buffer.Length
      modifies this`size, buffer
      ensures Valid() && Content() == old(Content()) + data
    {
      for i := 0 to |data|
        invariant size == old(size) && buffer[..size] == old(buffer[..size])
        invariant buffer[size..size + i] == data[..i]
      {
        buffer[size + i] := data[i];
      }
      IncrementSize(|data|);
    }

    method MoveBufferToStart(startIndex: nat, endIndex: nat)
      requires Valid() && startIndex <= endIndex < size
      modifies this`size, buffer
      ensures Valid() && Content() == old(Content())[startIndex..endIndex + 1]
    {
      var newSize := endIndex - startIndex + 1;
      for i := 0 to newSize
        invariant size == old(size)
        invariant forall k | 0 <= k < i :: buffer[k] == old(buffer[startIndex + k])
        invariant forall k | i <= k < buffer.Length :: buffer[k] == old(buffer[k])
      {
        buffer[i] := buffer[startIndex + i];
      }
      size := newSize;
      assert forall k | 0 <= k < newSize :: Content()[k] == old(Content())[startIndex..endIndex + 1][k];
    }

    /** One scan of the whole content. When it throws, the content stays and the messages before it are out. */
    method Parse() returns (ok: bool, messages: seq<Msg>)
      requires Valid()
      modifies this`size, buffer
      ensures Valid() && ok == !ScanAll(old(Content())).failed && messages == ScanAll(old(Content())).messages
      ensures Content() == if ok then Kept(old(Content())) else old(Content())
    {
      ghost var t := Content();
      ghost var g := ScanAll(t);
      if !g.failed { WhatIsLeft(t); }
      var remainingBytesStartIndex;
      var remainingBytesEndIndex := if size == 0 then 0xffff_ffff_ffff_ffff else size - 1;
      ok, messages, remainingBytesStartIndex := ParseMultipleMessages(buffer, size);
      if !ok {
        return;
      }
      if |messages| > 0 {
        if remainingBytesEndIndex > remainingBytesStartIndex {
          assert t[remainingBytesStartIndex..remainingBytesEndIndex + 1] == g.since && |g.since| > 1;
          MoveBufferToStart(remainingBytesStartIndex, remainingBytesEndIndex);
        } else {
          size := 0;
          assert Content() == "" && |g.since| <= 1;
        }
      } else {
        assert Content() == t == g.since;
      }
    }

    /** One receive and its parse. */
    method ReceiveAndParse(data: string) returns (ok: bool, messages: seq<Msg>)
      requires Valid() && size + |data| <= buffer.Length
      modifies this`size, buffer
      ensures var t := old(Content()) + data;
              && Valid() && ok == !ScanAll(t).failed && messages == ScanAll(t).messages
              && Content() == if ok then Kept(t) else t
    {
      Receive(data);
      ok, messages := Parse();
    }

    /** Receives and parses in turn. */
    method Serve(chunks: seq<string>) returns (messages: seq<Msg>)
      requires Valid() && Fits(Content(), chunks, buffer.Length) && Safe(Content(), chunks)
      requires !ScanAll(Content() + Flat(chunks)).failed && ScanAll(Content()).messages == []
      modifies this`size, buffer
      ensures Valid() && Content() == Left(old(Content()), chunks)
      ensures messages == ScanAll(old(Content()) + Flat(chunks)).messages && ScanAll(Content()).messages == []
    {
      ghost var k := Content();
      messages := [];
      for i := 0 to |chunks|
        invariant Valid() && Fits(Content(), chunks[i..], buffer.Length) && Safe(Content(), chunks[i..])
        invariant !ScanAll(Content() + Flat(chunks[i..])).failed
        invariant messages + Delivered(Content(), chunks[i..]) == Delivered(k, chunks)
        invariant Left(Content(), chunks[i..]) == Left(k, chunks)
      {
        ghost var before := Content();
        ghost var rest := chunks[i..];
        assert rest[0] == chunks[i] && rest[1..] == chunks[i + 1..];
        ServeStep(before, rest);
        var ok, more := ReceiveAndParse(chunks[i]);
        Associative(messages, more, Delivered(Content(), rest[1..]));
        messages := messages + more;
      }
      assert messages + [] == messages;
      ServeEnds(k, chunks);
    }
  }

  lemma ServeEnds(kept: string, chunks: seq<string>)
    requires Safe(kept, chunks) && !ScanAll(kept + Flat(chunks)).failed && ScanAll(kept).messages == []
    ensures Delivered(kept, chunks) == ScanAll(kept + Flat(chunks)).messages
    ensures ScanAll(Left(kept, chunks)).messages == []
  {
    ChunksDoNotMatter(kept, chunks, "");
    LeftQuiet(kept, chunks);
    assert (kept + Flat(chunks)) + "" == kept + Flat(chunks) && Left(kept, chunks) + "" == Left(kept, chunks);
    assert Delivered(kept, chunks) + [] == Delivered(kept, chunks);
  }

  /** Between parses the cache holds no complete message. */
  lemma {:induction false} LeftQuiet(kept: string, chunks: seq<string>)
    requires Safe(kept, chunks) && !ScanAll(kept + Flat(chunks)).failed && ScanAll(kept).messages == []
    ensures ScanAll(Left(kept, chunks)).messages == []
    decreases |chunks|
  {
    if chunks != [] {
      var t := kept + chunks[0];
      ServeStep(kept, chunks);
      KeptResumes(t, "");
      assert t + "" == t && Kept(t) + "" == Kept(t);
      LeftQuiet(Kept(t), chunks[1..]);
    }
  }

  lemma ServeStep(kept: string, chunks: seq<string>)
    requires chunks != [] && Safe(kept, chunks) && !ScanAll(kept + Flat(chunks)).failed
    ensures !ScanAll(kept + chunks[0]).failed
    ensures !ScanAll(Kept(kept + chunks[0]) + Flat(chunks[1..])).failed
  {
    var t, u := kept + chunks[0], Flat(chunks[1..]);
    assert kept + Flat(chunks) == t + u;
    if ScanAll(t).failed { FailsOn(t, u); }
    KeptResumes(t, u);
  }
}
