/** What the parsers make of every text, printed or not: where a message starts, which tags it has, where it ends, and
    when an exception ends the scan (`source/fix/fix_parser.h`). */
module RawStreams {
  import opened Wrappers
  import opened Text
  import opened FixConstants
  import opened FixMessages
  import opened FixParsers
  import opened RoundTrip

  // ----- One field -----

  /** What stands before the first '=' of a field. */
  function TagOf(field: string): string {
    field[..Find(field, '=')]
  }

  /** What stands behind it, without any '='. */
  function ValueOf(field: string): string {
    var k := Find(field, '=');
    if k < |field| then Strip(field[k + 1..]) else ""
  }

  /** The checksum field, which ends a message. */
  predicate Ends(field: string) {
    '=' in field && TagOf(field) == "10"
  }

  /** How many characters stand before the first delimiter. */
  function FieldLength(text: string): (k: nat)
    ensures k <= |text| && FIX_DELIMITER !in text[..k] && (k < |text| ==> text[k] == FIX_DELIMITER)
  {
    Find(text, FIX_DELIMITER)
  }

  lemma SplitAt(s: string, k: nat, rest: string)
    requires k < |s|
    ensures s == s[..k] + [s[k]] + s[k + 1..] && s + rest == s[..k] + ([s[k]] + (s[k + 1..] + rest))
  {
  }

  lemma NotInPart(s: string, c: char, i: nat, j: nat)
    requires i <= j <= |s| && c !in s
    ensures c !in s[i..j] && c !in s[..j] && c !in s[i..]
  {
  }

  lemma FieldSplit(field: string, rest: string)
    requires FIX_DELIMITER !in field && '=' in field
    ensures var v := field[Find(field, '=') + 1..];
            && Plain(TagOf(field)) && FIX_DELIMITER !in v && ValueOf(field) == Strip(v)
            && field == TagOf(field) + [FIX_EQUALS] + v && field + rest == TagOf(field) + ([FIX_EQUALS] + (v + rest))
  {
    var k := Find(field, '=');
    SplitAt(field, k, rest);
    NotInPart(field, FIX_DELIMITER, k + 1, |field|);
    NotInPart(field, FIX_DELIMITER, 0, k);
  }

  lemma FieldBare(field: string)
    requires FIX_DELIMITER !in field && '=' !in field
    ensures Plain(field) && TagOf(field) == field && ValueOf(field) == ""
  {
    assert field[..|field|] == field;
  }

  // ----- One message from one text -----

  /** The message with every whole field of the text set; None when some tag is no int. */
  function Fill(m: Msg, text: string): Option<Msg>
    decreases |text|
  {
    var k := FieldLength(text);
    if k == |text| then Some(m)
    else
      match StoI(TagOf(text[..k]))
      case None => None
      case Some(tag) => Fill(WithTag(m, tag, ValueOf(text[..k])), text[k + 1..])
  }

  lemma ReadDelimiter(r: Reader, rest: string)
    ensures Read(r, [FIX_DELIMITER] + rest) ==
            match StoI(r.tag) case None => None case Some(tag) => Read(Clean(WithTag(r.msg, tag, r.value)), rest)
  {
    assert ([FIX_DELIMITER] + rest)[1..] == rest;
  }

  lemma ReadTagged(m: Msg, t: string, v: string, tail: string)
    requires Plain(t) && FIX_DELIMITER !in v
    ensures Read(Clean(m), t + ([FIX_EQUALS] + (v + tail))) == Read(Reader(t, Strip(v), true, m), tail)
  {
    ReadTag(Clean(m), t, [FIX_EQUALS] + (v + tail));
    assert "" + t == t && "" + Strip(v) == Strip(v) && ([FIX_EQUALS] + (v + tail))[1..] == v + tail;
    ReadValue(Reader(t, "", true, m), v, tail);
  }

  lemma ReadWhole(m: Msg, field: string, rest: string)
    requires FIX_DELIMITER !in field
    ensures Read(Clean(m), field + ([FIX_DELIMITER] + rest)) ==
            match StoI(TagOf(field))
            case None => None
            case Some(tag) => Read(Clean(WithTag(m, tag, ValueOf(field))), rest)
  {
    var tail := [FIX_DELIMITER] + rest;
    if '=' in field {
      FieldSplit(field, tail);
      ReadTagged(m, TagOf(field), field[Find(field, '=') + 1..], tail);
      ReadDelimiter(Reader(TagOf(field), ValueOf(field), true, m), rest);
    } else {
      FieldBare(field);
      ReadTag(Clean(m), field, tail);
      assert "" + field == field;
      ReadDelimiter(Reader(field, "", false, m), rest);
    }
  }

  lemma {:induction false} ReadPart(r: Reader, text: string)
    requires FIX_DELIMITER !in text
    ensures Read(r, text).Some? && Read(r, text).value.msg == r.msg
    decreases |text|
  {
    if text != "" { ReadPart(ReadChar(r, text[0]).value, text[1..]); }
  }

  lemma {:induction false} FilledIsFill(m: Msg, text: string)
    ensures Filled(m, text) == Fill(m, text)
    decreases |text|
  {
    var k := FieldLength(text);
    if k == |text| {
      assert text[..k] == text;
      ReadPart(Clean(m), text);
    } else {
      var field, rest := text[..k], text[k + 1..];
      assert text == field + ([FIX_DELIMITER] + rest);
      ReadWhole(m, field, rest);
      if StoI(TagOf(field)).Some? { FilledIsFill(WithTag(m, StoI(TagOf(field)).value, ValueOf(field)), rest); }
    }
  }

  /** The one-message parser, on every text. */
  lemma ParsesExactly(m: Msg, text: string)
    ensures ParseOne(m, text) == match Fill(m, text) case None => None case Some(n) => Header(n)
  {
    FilledIsFill(m, text);
  }

  // ----- A line of text -----

  /** What a line keeps of a value: what stands between the first two '='. */
  function FirstValue(field: string): string {
    var k := Find(field, '=');
    if k < |field| then TagOf(field[k + 1..]) else ""
  }

  /** A field of a line: its tag is an int, and something stands behind the first '='. */
  predicate Paired(field: string) {
    && '=' in field && field[Find(field, '=') + 1..] != "" && StoI(TagOf(field)).Some?
  }

  /** Every field of the line but the empty ones sets its tag, a last one without a delimiter too; None when one of them
      is not paired. */
  function FillLine(m: Msg, line: string): Option<Msg>
    decreases |line|
  {
    if line == "" then Some(m)
    else
      var k := FieldLength(line);
      var field, rest := line[..k], if k < |line| then line[k + 1..] else "";
      if field == "" then FillLine(m, rest)
      else if !Paired(field) then None
      else FillLine(WithTag(m, StoI(TagOf(field)).value, FirstValue(field)), rest)
  }

  lemma TokensOf(field: string)
    requires field != ""
    ensures var tokens := Split(field, '=');
            && tokens != [] && tokens[0] == TagOf(field)
            && (|tokens| >= 2 <==> '=' in field && field[Find(field, '=') + 1..] != "")
            && (|tokens| >= 2 ==> tokens[1] == FirstValue(field))
  {
    var k := Find(field, '=');
    if k < |field| {
      var v := field[k + 1..];
      assert Split(field, '=') == [field[..k]] + Split(v, '=');
      if v != "" { TokensFirst(v); }
    } else {
      assert field[..k] == field;
    }
  }

  lemma TokensFirst(v: string)
    requires v != ""
    ensures Split(v, '=') != [] && Split(v, '=')[0] == TagOf(v)
  {
    var k := Find(v, '=');
    if k == |v| { assert v[..k] == v; }
  }

  lemma SplitLine(line: string)
    requires line != ""
    ensures var k := FieldLength(line);
            Split(line, FIX_DELIMITER) ==
            [line[..k]] + Split(if k < |line| then line[k + 1..] else "", FIX_DELIMITER)
  {
    var k := FieldLength(line);
    if k == |line| { assert line[..k] == line; }
  }

  lemma {:induction false} PairsFillLine(m: Msg, line: string)
    ensures ReadPairs(m, Split(line, FIX_DELIMITER)) == FillLine(m, line)
    decreases |line|
  {
    if line != "" {
      var k := FieldLength(line);
      var field, rest := line[..k], if k < |line| then line[k + 1..] else "";
      SplitLine(line);
      var pieces := Split(line, FIX_DELIMITER);
      assert pieces[0] == field && pieces[1..] == Split(rest, FIX_DELIMITER);
      if field == "" {
        PairsFillLine(m, rest);
      } else {
        TokensOf(field);
        if Paired(field) { PairsFillLine(WithTag(m, StoI(TagOf(field)).value, FirstValue(field)), rest); }
      }
    }
  }

  /** The line parser, on every text. */
  lemma LinesExactly(m: Msg, line: string)
    ensures ParseText(m, line) == match FillLine(m, line) case None => None case Some(n) => Header(n)
  {
    PairsFillLine(m, line);
  }

  // ----- Messages in a stream -----

  /** A message begins where "8=" stands. */
  predicate Opens(text: string) {
    |text| >= 2 && text[0] == '8' && text[1] == '='
  }

  /** How many characters stand before the next message. */
  function Garbage(text: string): (k: nat)
    ensures k <= |text| && (k < |text| ==> Opens(text[k..])) && forall i | 0 <= i < k :: !Opens(text[i..])
    decreases |text|
  {
    if text == "" || Opens(text) then 0
    else
      var k := Garbage(text[1..]);
      assert forall i | 1 <= i <= |text| :: text[i..] == text[1..][i - 1..];
      1 + k
  }

  /** A message that has begun: not whole yet, or one that raises an exception, or whole with this rest behind it. */
  datatype Begun = Partial | Throws | Whole(msg: Msg, rest: string)

  /** Fields are set up to the first checksum field; then the header is taken out. */
  function Take(m: Msg, text: string): Begun
    decreases |text|
  {
    var k := FieldLength(text);
    if k == |text| then Partial
    else
      var field, rest := text[..k], text[k + 1..];
      match StoI(TagOf(field))
      case None => Throws
      case Some(tag) =>
        var n := WithTag(m, tag, ValueOf(field));
        if !Ends(field) then Take(n, rest)
        else match Header(n) case None => Throws case Some(h) => Whole(h, rest)
  }

  lemma {:induction false} TakeShorter(m: Msg, text: string)
    ensures Take(m, text).Whole? ==> |Take(m, text).rest| < |text|
    decreases |text|
  {
    var k := FieldLength(text);
    if k < |text| && StoI(TagOf(text[..k])).Some? {
      TakeShorter(WithTag(m, StoI(TagOf(text[..k])).value, ValueOf(text[..k])), text[k + 1..]);
    }
  }

  /** What a stream holds: its messages, what is left behind the last of them, and whether an exception ended it. */
  datatype Stream = Stream(messages: seq<Msg>, left: string, threw: bool)

  function Messages(text: string): Stream
    decreases |text|
  {
    var t := text[Garbage(text)..];
    match Take(EMPTY, t)
    case Partial => Stream([], text, false)
    case Throws => Stream([], text, true)
    case Whole(m, rest) =>
      TakeShorter(EMPTY, t);
      var more := Messages(rest);
      Stream([m] + more.messages, more.left, more.threw)
  }

  // ----- The scan finds just these -----

  lemma {:induction false} SkipGarbage(s: Scan, text: string)
    requires !s.started && !s.failed
    ensures var k := Garbage(text);
            Go(s, text, NOTHING) == Go(s.(since := s.since + text[..k]), text[k..], NOTHING)
    decreases |text|
  {
    var k := Garbage(text);
    if k == 0 {
      assert s.since + text[..0] == s.since && text[0..] == text;
    } else {
      var n := s.(since := s.since + [text[0]]);
      assert ScanChar(s, text[0], if |text| > 1 then text[1] else NOTHING) == n;
      GarbageNext(text);
      SkipGarbage(n, text[1..]);
      assert n.since + text[1..][..k - 1] == s.since + text[..k] && text[1..][k - 1..] == text[k..];
    }
  }

  lemma GarbageNext(text: string)
    requires Garbage(text) > 0
    ensures text != "" && !Opens(text) && Garbage(text[1..]) == Garbage(text) - 1
  {
  }

  /** Where the scan stands after a field of a started message, however it is written. */
  ghost predicate FieldScanned(s: Scan, field: string, rest: string) {
    var g := Go(s, field + ([FIX_DELIMITER] + rest), NOTHING);
    match StoI(TagOf(field))
    case None => g.failed && g.messages == s.messages
    case Some(tag) =>
      var n := WithTag(s.reader.msg, tag, ValueOf(field));
      if !Ends(field) then
        g == Go(s.(reader := Clean(n), since := s.since + field + [FIX_DELIMITER]), rest, NOTHING)
      else
        match Header(n)
        case None => g.failed && g.messages == s.messages
        case Some(h) => g == Go(START.(messages := s.messages + [h]), rest, NOTHING)
  }

  ghost predicate Ready(s: Scan) {
    s.started && !s.failed && !s.last && s.reader == Clean(s.reader.msg)
  }

  /** The delimiter behind a field that has been read. */
  lemma DelimiterScanned(s: Scan, t: string, v: string, inValue: bool, last: bool, since: string, rest: string)
    requires Ready(s)
    ensures var u := s.(reader := Reader(t, v, inValue, s.reader.msg), last := last, since := since);
            var g := Go(u, [FIX_DELIMITER] + rest, NOTHING);
            match StoI(t)
            case None => g.failed && g.messages == s.messages
            case Some(tag) =>
              var n := WithTag(s.reader.msg, tag, v);
              if !last then g == Go(s.(reader := Clean(n), since := since + [FIX_DELIMITER]), rest, NOTHING)
              else
                match Header(n)
                case None => g.failed && g.messages == s.messages
                case Some(h) => g == Go(START.(messages := s.messages + [h]), rest, NOTHING)
  {
    var u := s.(reader := Reader(t, v, inValue, s.reader.msg), last := last, since := since);
    var next := if rest == "" then NOTHING else rest[0];
    GoStep(u, FIX_DELIMITER, rest, NOTHING);
    var n := ScanChar(u, FIX_DELIMITER, next);
    if n.failed { GoFailed(n, rest, NOTHING); }
  }

  lemma ScanField(s: Scan, field: string, rest: string)
    requires Ready(s) && FIX_DELIMITER !in field
    ensures FieldScanned(s, field, rest)
  {
    if '=' in field { ScanPair(s, field, rest); } else { ScanBare(s, field, rest); }
  }

  lemma ScanPair(s: Scan, field: string, rest: string)
    requires Ready(s) && FIX_DELIMITER !in field && '=' in field
    ensures FieldScanned(s, field, rest)
  {
    var t, v := TagOf(field), field[Find(field, '=') + 1..];
    FieldSplit(field, [FIX_DELIMITER] + rest);
    ScanTagged(s, t, v, [FIX_DELIMITER] + rest);
    SinceParts(s.since, t, v, field);
    DelimiterScanned(s, t, Strip(v), true, t == "10", s.since + field, rest);
  }

  lemma SinceParts(since: string, t: string, v: string, field: string)
    requires field == t + [FIX_EQUALS] + v
    ensures since + t + [FIX_EQUALS] + v == since + field
  {
  }

  lemma ScanBare(s: Scan, field: string, rest: string)
    requires Ready(s) && FIX_DELIMITER !in field && '=' !in field
    ensures FieldScanned(s, field, rest)
  {
    FieldBare(field);
    assert "" + field == field;
    GoTag(s, field, [FIX_DELIMITER] + rest, NOTHING);
    DelimiterScanned(s, field, "", false, false, s.since + field, rest);
  }

  /** A tag, an '=' and a value are read. */
  lemma ScanTagged(s: Scan, t: string, v: string, tail: string)
    requires Ready(s) && Plain(t) && FIX_DELIMITER !in v
    ensures Go(s, t + ([FIX_EQUALS] + (v + tail)), NOTHING) ==
            Go(s.(reader := Reader(t, Strip(v), true, s.reader.msg), last := t == "10",
                  since := s.since + t + [FIX_EQUALS] + v), tail, NOTHING)
  {
    GoTag(s, t, [FIX_EQUALS] + (v + tail), NOTHING);
    assert "" + t == t && "" + Strip(v) == Strip(v);
    var s1 := s.(reader := Reader(t, "", false, s.reader.msg), since := s.since + t);
    GoStep(s1, FIX_EQUALS, v + tail, NOTHING);
    StepEquals(s1, if v + tail == "" then NOTHING else (v + tail)[0]);
    var s2 := s.(reader := Reader(t, "", true, s.reader.msg), last := t == "10", since := s.since + t + [FIX_EQUALS]);
    GoValue(s2, v, tail, NOTHING);
  }

  lemma {:induction false} ScanPart(s: Scan, text: string)
    requires s.started && !s.failed && FIX_DELIMITER !in text
    ensures var g := Go(s, text, NOTHING); !g.failed && g.messages == s.messages && g.since == s.since + text
    decreases |text|
  {
    if text == "" {
      assert s.since + text == s.since;
    } else {
      var n := ScanChar(s, text[0], if |text| > 1 then text[1] else NOTHING);
      ScanPart(n, text[1..]);
      assert n.since + text[1..] == s.since + text;
    }
  }

  /** Where the scan stands after a message that has begun. */
  ghost predicate Taken(s: Scan, text: string, begun: Begun) {
    var g := Go(s, text, NOTHING);
    match begun
    case Partial => !g.failed && g.messages == s.messages && g.since == s.since + text
    case Throws => g.failed && g.messages == s.messages
    case Whole(m, rest) => g == Go(START.(messages := s.messages + [m]), rest, NOTHING)
  }

  /** Behind one of its fields the message goes on. */
  lemma TakenOn(s: Scan, n: Scan, text: string, rest: string, begun: Begun)
    requires Go(s, text, NOTHING) == Go(n, rest, NOTHING) && n.messages == s.messages && n.since + rest == s.since + text
    requires Taken(n, rest, begun)
    ensures Taken(s, text, begun)
  {
  }

  /** Its last field, or one that throws. */
  lemma TakenEnd(s: Scan, field: string, rest: string)
    requires FieldScanned(s, field, rest) && FIX_DELIMITER !in field && (StoI(TagOf(field)).Some? ==> Ends(field))
    ensures var text := field + ([FIX_DELIMITER] + rest);
            Taken(s, text, Take(s.reader.msg, text))
  {
    TakeFirst(s.reader.msg, field, rest);
  }

  lemma TakeFirst(m: Msg, field: string, rest: string)
    requires FIX_DELIMITER !in field
    ensures Take(m, field + ([FIX_DELIMITER] + rest)) ==
            match StoI(TagOf(field))
            case None => Throws
            case Some(tag) =>
              var n := WithTag(m, tag, ValueOf(field));
              if !Ends(field) then Take(n, rest)
              else match Header(n) case None => Throws case Some(h) => Whole(h, rest)
  {
    var text := field + ([FIX_DELIMITER] + rest);
    assert text == field + [FIX_DELIMITER] + rest;
    FindAfter(field, FIX_DELIMITER, rest);
    assert text[..|field|] == field && text[|field| + 1..] == rest;
  }

  lemma {:induction false} ScanTake(s: Scan, text: string)
    requires Ready(s)
    ensures Taken(s, text, Take(s.reader.msg, text))
    decreases |text|, 1
  {
    var k := FieldLength(text);
    if k == |text| {
      assert text[..k] == text;
      ScanPart(s, text);
    } else {
      var field, rest := text[..k], text[k + 1..];
      assert text == field + ([FIX_DELIMITER] + rest);
      ScanField(s, field, rest);
      if StoI(TagOf(field)).Some? && !Ends(field) {
        ScanNext(s, field, rest, text);
      } else {
        TakenEnd(s, field, rest);
      }
    }
  }

  lemma {:induction false} ScanNext(s: Scan, field: string, rest: string, text: string)
    requires Ready(s) && FIX_DELIMITER !in field && text == field + ([FIX_DELIMITER] + rest)
    requires StoI(TagOf(field)).Some? && !Ends(field) && FieldScanned(s, field, rest)
    ensures Taken(s, text, Take(s.reader.msg, text))
    decreases |text|, 0
  {
    var n := WithTag(s.reader.msg, StoI(TagOf(field)).value, ValueOf(field));
    var next := s.(reader := Clean(n), since := s.since + field + [FIX_DELIMITER]);
    ScanTake(next, rest);
    assert s.since + field + [FIX_DELIMITER] + rest == s.since + text;
    TakeFirst(s.reader.msg, field, rest);
    TakenOn(s, next, text, rest, Take(n, rest));
  }

  /** The "8=" starts a message. */
  lemma ScanOpens(s: Scan, text: string)
    requires !s.started && !s.failed && Opens(text)
    ensures Go(s, text, NOTHING) == Go(s.(started := true), text, NOTHING)
  {
  }

  /** A scan has found what a stream holds. */
  ghost predicate Found(messages: seq<Msg>, g: Scan, h: Stream) {
    g.failed == h.threw && g.messages == messages + h.messages && (!h.threw ==> g.since == h.left)
  }

  lemma {:induction false} ScanMessages(messages: seq<Msg>, text: string)
    ensures Found(messages, Go(START.(messages := messages), text, NOTHING), Messages(text))
    decreases |text|
  {
    var k := Garbage(text);
    var u := START.(messages := messages, since := text[..k]);
    SkipGarbage(START.(messages := messages), text);
    assert "" + text[..k] == text[..k];
    if k < |text| {
      ScanOpens(u, text[k..]);
      ScanTake(u.(started := true), text[k..]);
      match Take(EMPTY, text[k..])
      case Whole(m, rest) =>
        TakeShorter(EMPTY, text[k..]);
        ScanMessages(messages + [m], rest);
        FoundMore(messages, m, Go(START.(messages := messages + [m]), rest, NOTHING), text, rest);
      case _ => FoundNone(messages, u.(started := true), text);
    }
  }

  lemma FoundMore(messages: seq<Msg>, m: Msg, g: Scan, text: string, rest: string)
    requires Take(EMPTY, text[Garbage(text)..]) == Whole(m, rest) && |rest| < |text|
    requires Found(messages + [m], g, Messages(rest))
    ensures Found(messages, g, Messages(text))
  {
    MessagesFirst(text, m, rest);
    Associative(messages, [m], Messages(rest).messages);
  }

  lemma MessagesFirst(text: string, m: Msg, rest: string)
    requires Take(EMPTY, text[Garbage(text)..]) == Whole(m, rest) && |rest| < |text|
    ensures Messages(text) == Stream([m] + Messages(rest).messages, Messages(rest).left, Messages(rest).threw)
  {
  }

  lemma FoundNone(messages: seq<Msg>, u: Scan, text: string)
    requires u.messages == messages && u.since == text[..Garbage(text)]
    requires !Take(EMPTY, text[Garbage(text)..]).Whole?
    requires Taken(u, text[Garbage(text)..], Take(EMPTY, text[Garbage(text)..]))
    ensures Found(messages, Go(u, text[Garbage(text)..], NOTHING), Messages(text))
  {
    assert text[..Garbage(text)] + text[Garbage(text)..] == text;
  }

  /** Scanning any text finds the messages that it holds, keeps what is behind the last of them, and fails if and only if
      one of them raises an exception. */
  lemma ScansExactly(text: string)
    ensures var g, h := ScanAll(text), Messages(text);
            && g.failed == h.threw && g.messages == h.messages && (!h.threw ==> g.since == h.left)
  {
    ScanMessages([], text);
    assert [] + Messages(text).messages == Messages(text).messages;
  }
}
