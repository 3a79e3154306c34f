/** Printing and scanning are inverse: the concatenated prints of any messages scan to those messages, each with
    the tags 9 and 10 it was printed with (`source/fix/fix_message.cpp`, `source/fix/fix_parser.h`). */
module RoundTrip {
  import opened Integers
  import opened Wrappers
  import opened Text
  import opened FixConstants
  import opened FixMessages
  import opened FixParsers

  /** A value as the parsers keep it: they drop every '='. */
  function Strip(v: string): (s: string)
    ensures |s| <= |v| && FIX_EQUALS !in s
  {
    if v == "" then "" else (if v[0] == FIX_EQUALS then "" else [v[0]]) + Strip(v[1..])
  }

  lemma StripPlain(v: string)
    ensures Strip(v) == v <==> FIX_EQUALS !in v
  {
    if v != "" {
      StripPlain(v[1..]);
      assert v == [v[0]] + v[1..];
      if v[0] == FIX_EQUALS { assert |Strip(v)| < |v|; }
    }
  }

  // ----- One field -----

  lemma {:induction false} ReadTag(r: Reader, t: string, rest: string)
    requires Plain(t) && !r.inValue
    ensures Read(r, t + rest) == Read(r.(tag := r.tag + t), rest)
    decreases |t|
  {
    if t == "" {
      assert t + rest == rest && r.tag + t == r.tag;
    } else {
      assert (t + rest)[1..] == t[1..] + rest && (r.tag + [t[0]]) + t[1..] == r.tag + t;
      ReadTag(r.(tag := r.tag + [t[0]]), t[1..], rest);
    }
  }

  lemma {:induction false} ReadValue(r: Reader, v: string, rest: string)
    requires FIX_DELIMITER !in v && r.inValue
    ensures Read(r, v + rest) == Read(r.(value := r.value + Strip(v)), rest)
    decreases |v|
  {
    if v == "" {
      assert v + rest == rest && r.value + Strip(v) == r.value;
    } else {
      assert (v + rest)[1..] == v[1..] + rest;
      if v[0] == FIX_EQUALS {
        assert Strip(v) == Strip(v[1..]);
        ReadValue(r, v[1..], rest);
      } else {
        assert (r.value + [v[0]]) + Strip(v[1..]) == r.value + Strip(v);
        ReadValue(r.(value := r.value + [v[0]]), v[1..], rest);
      }
    }
  }

  lemma GoStep(s: Scan, c: char, rest: string, after: char)
    ensures Go(s, [c] + rest, after) == Go(ScanChar(s, c, if rest == "" then after else rest[0]), rest, after)
  {
    assert ([c] + rest)[1..] == rest;
  }

  lemma StepEquals(s: Scan, next: char)
    requires s.started && !s.failed
    ensures ScanChar(s, FIX_EQUALS, next) ==
            s.(reader := s.reader.(inValue := true), last := s.last || s.reader.tag == "10", since := s.since + [FIX_EQUALS])
  {
  }

  lemma StepPush(s: Scan, c: char, next: char)
    requires s.started && !s.failed && c != FIX_EQUALS && c != FIX_DELIMITER
    ensures ScanChar(s, c, next) == s.(reader := Push(s.reader, c), since := s.since + [c])
  {
  }

  lemma {:induction false} GoTag(s: Scan, t: string, rest: string, after: char)
    requires Plain(t) && s.started && !s.failed && !s.reader.inValue
    ensures Go(s, t + rest, after) ==
            Go(s.(reader := s.reader.(tag := s.reader.tag + t), since := s.since + t), rest, after)
    decreases |t|
  {
    if t == "" {
      assert t + rest == rest && s.reader.tag + t == s.reader.tag && s.since + t == s.since;
    } else {
      var tail := t[1..] + rest;
      var n := s.(reader := s.reader.(tag := s.reader.tag + [t[0]]), since := s.since + [t[0]]);
      assert t + rest == [t[0]] + tail;
      GoStep(s, t[0], tail, after);
      StepPush(s, t[0], if tail == "" then after else tail[0]);
      assert n.reader.tag + t[1..] == s.reader.tag + t && n.since + t[1..] == s.since + t;
      GoTag(n, t[1..], rest, after);
    }
  }

  lemma {:induction false} GoValue(s: Scan, v: string, rest: string, after: char)
    requires FIX_DELIMITER !in v && s.started && !s.failed && s.reader.inValue && (s.reader.tag == "10" ==> s.last)
    ensures Go(s, v + rest, after) ==
            Go(s.(reader := s.reader.(value := s.reader.value + Strip(v)), since := s.since + v), rest, after)
    decreases |v|
  {
    if v == "" {
      assert v + rest == rest && s.reader.value + Strip(v) == s.reader.value && s.since + v == s.since;
    } else {
      var tail := v[1..] + rest;
      var next := if tail == "" then after else tail[0];
      var kept := if v[0] == FIX_EQUALS then "" else [v[0]];
      var n := s.(reader := s.reader.(value := s.reader.value + kept), since := s.since + [v[0]]);
      assert v + rest == [v[0]] + tail;
      GoStep(s, v[0], tail, after);
      if v[0] == FIX_EQUALS { StepEquals(s, next); } else { StepPush(s, v[0], next); }
      assert s.reader.value + "" == s.reader.value;
      assert n.reader.value + Strip(v[1..]) == s.reader.value + Strip(v) && n.since + v[1..] == s.since + v;
      GoValue(n, v[1..], rest, after);
    }
  }

  predicate IsInt(n: int) {
    INT_MIN <= n <= INT_MAX
  }

  lemma FieldParts(tag: int, v: string, rest: string)
    ensures Plain(ToDec(tag))
    ensures Field(tag, v) + rest == ToDec(tag) + ([FIX_EQUALS] + (v + ([FIX_DELIMITER] + rest)))
  {
    ToDecPlain(tag, FIX_EQUALS);
    ToDecPlain(tag, FIX_DELIMITER);
  }

  /** A printed field sets its tag. */
  lemma ReadField(m: Msg, tag: int, v: string, rest: string)
    requires IsInt(tag) && FIX_DELIMITER !in v
    ensures Read(Clean(m), Field(tag, v) + rest) == Read(Clean(WithTag(m, tag, Strip(v))), rest)
  {
    var t := ToDec(tag);
    var tail := [FIX_DELIMITER] + rest;
    FieldParts(tag, v, rest);
    StoIOfToDec(tag);
    ReadTag(Clean(m), t, [FIX_EQUALS] + (v + tail));
    assert "" + t == t && "" + Strip(v) == Strip(v);
    assert ([FIX_EQUALS] + (v + tail))[1..] == v + tail && tail[1..] == rest;
    ReadValue(Reader(t, "", true, m), v, tail);
  }

  lemma StepDelimiter(s: Scan, next: char, tag: int)
    requires s.started && !s.failed && !s.last && StoI(s.reader.tag) == Some(tag)
    ensures ScanChar(s, FIX_DELIMITER, next) ==
            s.(reader := Clean(WithTag(s.reader.msg, tag, s.reader.value)), since := s.since + [FIX_DELIMITER])
  {
  }

  lemma SinceField(since: string, tag: int, v: string)
    ensures (((since + ToDec(tag)) + [FIX_EQUALS]) + v) + [FIX_DELIMITER] == since + Field(tag, v)
  {
  }

  /** Where a stream stands after a printed field other than the checksum. */
  lemma GoField(s: Scan, tag: int, v: string, rest: string, after: char)
    requires IsInt(tag) && tag != TAG_BODY_CHECKSUM && FIX_DELIMITER !in v
    requires s.started && !s.failed && !s.last && s.reader == Clean(s.reader.msg)
    ensures Go(s, Field(tag, v) + rest, after) ==
            Go(s.(reader := Clean(WithTag(s.reader.msg, tag, Strip(v))), since := s.since + Field(tag, v)), rest, after)
  {
    var t := ToDec(tag);
    var tail := [FIX_DELIMITER] + rest;
    FieldParts(tag, v, rest);
    StoIOfToDec(tag);
    NotTen(tag);
    GoTag(s, t, [FIX_EQUALS] + (v + tail), after);
    assert "" + t == t && "" + Strip(v) == Strip(v);
    var s1 := s.(reader := Reader(t, "", false, s.reader.msg), since := s.since + t);
    GoStep(s1, FIX_EQUALS, v + tail, after);
    StepEquals(s1, (v + tail)[0]);
    var s2 := s.(reader := Reader(t, "", true, s.reader.msg), since := (s.since + t) + [FIX_EQUALS]);
    GoValue(s2, v, tail, after);
    var s3 := s2.(reader := Reader(t, Strip(v), true, s.reader.msg), since := s2.since + v);
    GoStep(s3, FIX_DELIMITER, rest, after);
    StepDelimiter(s3, if rest == "" then after else rest[0], tag);
    SinceField(s.since, tag, v);
  }

  lemma NotTen(tag: int)
    requires IsInt(tag) && tag != TAG_BODY_CHECKSUM
    ensures ToDec(tag) != "10"
  {
    TenIs();
    if ToDec(tag) == "10" { ToDecInjective(TAG_BODY_CHECKSUM, tag); }
  }

  lemma TenIs()
    ensures ToDec(TAG_BODY_CHECKSUM) == "10"
  {
    assert Digits(10) == Digits(1) + [Digit(0)];
  }

  /** A printed checksum completes the message. */
  lemma GoCheckSum(s: Scan, v: string, rest: string, after: char)
    requires FIX_DELIMITER !in v && s.started && !s.failed && s.reader == Clean(s.reader.msg)
    ensures Go(s, Field(TAG_BODY_CHECKSUM, v) + rest, after) ==
            Go(Finish(s.(reader := Reader("10", Strip(v), true, s.reader.msg), last := true,
                         since := s.since + "10" + [FIX_EQUALS] + v),
                      WithTag(s.reader.msg, TAG_BODY_CHECKSUM, Strip(v))), rest, after)
  {
    var tail := [FIX_DELIMITER] + rest;
    FieldParts(TAG_BODY_CHECKSUM, v, rest);
    StoIOfToDec(TAG_BODY_CHECKSUM);
    TenIs();
    GoTag(s, "10", [FIX_EQUALS] + (v + tail), after);
    assert "" + "10" == "10" && "" + Strip(v) == Strip(v);
    assert ([FIX_EQUALS] + (v + tail))[1..] == v + tail && tail[1..] == rest;
    var u := s.(reader := Reader("10", "", true, s.reader.msg), last := true, since := (s.since + "10") + [FIX_EQUALS]);
    GoValue(u, v, tail, after);
  }

  // ----- Many fields -----

  function WithTags(m: Msg, pairs: seq<(int, string)>): Msg {
    if pairs == [] then m
    else WithTag(WithTags(m, pairs[..|pairs| - 1]), pairs[|pairs| - 1].0, Strip(pairs[|pairs| - 1].1))
  }

  ghost predicate Undelimited(pairs: seq<(int, string)>) {
    forall i | 0 <= i < |pairs| :: IsInt(pairs[i].0) && FIX_DELIMITER !in pairs[i].1
  }

  ghost predicate Readable(pairs: seq<(int, string)>) {
    forall i | 0 <= i < |pairs| :: IsInt(pairs[i].0) && pairs[i].0 != TAG_BODY_CHECKSUM && FIX_DELIMITER !in pairs[i].1
  }

  lemma {:induction false} ReadFields(m: Msg, pairs: seq<(int, string)>, rest: string)
    requires Undelimited(pairs)
    ensures Read(Clean(m), Fields(pairs) + rest) == Read(Clean(WithTags(m, pairs)), rest)
    decreases |pairs|
  {
    if pairs == [] {
      assert Fields(pairs) + rest == rest;
    } else {
      var before, p := pairs[..|pairs| - 1], pairs[|pairs| - 1];
      Associative(Fields(before), Field(p.0, p.1), rest);
      ReadFields(m, before, Field(p.0, p.1) + rest);
      ReadField(WithTags(m, before), p.0, p.1, rest);
    }
  }

  lemma {:induction false} GoFields(s: Scan, pairs: seq<(int, string)>, rest: string, after: char)
    requires Readable(pairs) && s.started && !s.failed && !s.last && s.reader == Clean(s.reader.msg)
    ensures Go(s, Fields(pairs) + rest, after) ==
            Go(s.(reader := Clean(WithTags(s.reader.msg, pairs)), since := s.since + Fields(pairs)), rest, after)
    decreases |pairs|
  {
    if pairs == [] {
      assert Fields(pairs) + rest == rest && s.since + Fields(pairs) == s.since;
    } else {
      var before, p := pairs[..|pairs| - 1], pairs[|pairs| - 1];
      Associative(Fields(before), Field(p.0, p.1), rest);
      GoFields(s, before, Field(p.0, p.1) + rest, after);
      Associative(s.since, Fields(before), Field(p.0, p.1));
      GoField(s.(reader := Clean(WithTags(s.reader.msg, before)), since := s.since + Fields(before)), p.0, p.1, rest, after);
    }
  }

  // ----- Reading a line of text -----

  /** The pieces between the delimiters of printed fields. */
  function Pieces(pairs: seq<(int, string)>): seq<string> {
    if pairs == [] then [] else [ToDec(pairs[0].0) + [FIX_EQUALS] + pairs[0].1] + Pieces(pairs[1..])
  }

  /** What splitting keeps of a value: the part before its first '='. */
  function Token(v: string): string {
    v[..Find(v, FIX_EQUALS)]
  }

  predicate OnlyEqualsAfter(v: string) {
    forall i | Find(v, FIX_EQUALS) <= i < |v| :: v[i] == FIX_EQUALS
  }

  /** Scanning drops every '=' and splitting everything from the first one on, so the two agree on a value exactly
      when nothing but '=' follows its first '='. */
  lemma {:induction false} TokenIsStrip(v: string)
    ensures Token(v) == Strip(v) <==> OnlyEqualsAfter(v)
    decreases |v|
  {
    if v == "" {
    } else if v[0] == FIX_EQUALS {
      StripNone(v);
    } else {
      TokenIsStrip(v[1..]);
      var k := Find(v[1..], FIX_EQUALS);
      assert Token(v) == [v[0]] + Token(v[1..]) && Strip(v) == [v[0]] + Strip(v[1..]);
      if Token(v) == Strip(v) {
        assert Token(v)[1..] == Token(v[1..]) && Strip(v)[1..] == Strip(v[1..]);
      }
      assert forall i | 1 <= i < |v| :: v[i] == v[1..][i - 1];
      assert (forall i | k <= i < |v[1..]| :: v[1..][i] == FIX_EQUALS) <==>
             (forall i | k + 1 <= i < |v| :: v[i] == FIX_EQUALS) by {
        assert forall i | 0 <= i < |v[1..]| :: v[1..][i] == v[i + 1];
      }
    }
  }

  lemma {:induction false} StripNone(v: string)
    ensures Strip(v) == "" <==> forall i | 0 <= i < |v| :: v[i] == FIX_EQUALS
    decreases |v|
  {
    if v != "" {
      StripNone(v[1..]);
      assert forall i | 1 <= i < |v| :: v[i] == v[1..][i - 1];
      assert forall i | 0 <= i < |v[1..]| :: v[1..][i] == v[i + 1];
    }
  }

  lemma SplitField(tag: int, v: string, rest: string)
    requires FIX_DELIMITER !in v
    ensures Split(Field(tag, v) + rest, FIX_DELIMITER) == [ToDec(tag) + [FIX_EQUALS] + v] + Split(rest, FIX_DELIMITER)
  {
    var piece := ToDec(tag) + [FIX_EQUALS] + v;
    ToDecPlain(tag, FIX_DELIMITER);
    assert Field(tag, v) + rest == piece + [FIX_DELIMITER] + rest;
    FindAfter(piece, FIX_DELIMITER, rest);
    var text := piece + [FIX_DELIMITER] + rest;
    assert text[..|piece|] == piece && text[|piece| + 1..] == rest;
  }

  lemma FieldsFirst(pairs: seq<(int, string)>)
    requires pairs != []
    ensures Fields(pairs) == Field(pairs[0].0, pairs[0].1) + Fields(pairs[1..])
  {
    assert pairs == [pairs[0]] + pairs[1..];
    FieldsConcat([pairs[0]], pairs[1..]);
    FieldsOne(pairs[0].0, pairs[0].1);
  }

  lemma {:induction false} SplitFields(pairs: seq<(int, string)>)
    requires Undelimited(pairs)
    ensures Split(Fields(pairs), FIX_DELIMITER) == Pieces(pairs)
    decreases |pairs|
  {
    if pairs != [] {
      FieldsFirst(pairs);
      SplitField(pairs[0].0, pairs[0].1, Fields(pairs[1..]));
      SplitFields(pairs[1..]);
    }
  }

  /** The tokens of one piece: its tag, and the part of its value before the next '=', if it has a value. */
  lemma PieceTokens(tag: int, v: string)
    ensures var tokens := Split(ToDec(tag) + [FIX_EQUALS] + v, FIX_EQUALS);
            && tokens[..1] == [ToDec(tag)]
            && (|tokens| < 2 <==> v == "") && (v != "" ==> tokens[1] == Token(v))
  {
    var piece := ToDec(tag) + [FIX_EQUALS] + v;
    ToDecPlain(tag, FIX_EQUALS);
    FindAfter(ToDec(tag), FIX_EQUALS, v);
    assert piece[..|ToDec(tag)|] == ToDec(tag) && piece[|ToDec(tag)| + 1..] == v;
    assert Split(piece, FIX_EQUALS) == [ToDec(tag)] + Split(v, FIX_EQUALS);
    FirstToken(v);
  }

  lemma FirstToken(v: string)
    ensures Split(v, FIX_EQUALS) == [] <==> v == ""
    ensures v != "" ==> Split(v, FIX_EQUALS)[0] == Token(v)
  {
    if v != "" && Find(v, FIX_EQUALS) == |v| {
      assert Token(v) == v;
    }
  }

  lemma PieceReads(m: Msg, tag: int, v: string, rest: seq<string>)
    requires IsInt(tag)
    ensures ReadPairs(m, [ToDec(tag) + [FIX_EQUALS] + v] + rest) ==
            if v == "" then None else ReadPairs(WithTag(m, tag, Token(v)), rest)
  {
    var piece := ToDec(tag) + [FIX_EQUALS] + v;
    PieceTokens(tag, v);
    StoIOfToDec(tag);
    assert ([piece] + rest)[1..] == rest && piece != "";
    assert Split(piece, FIX_EQUALS)[..1][0] == ToDec(tag);
  }

  /** Tags set one after the other. */
  function Put(m: Msg, pairs: seq<(int, string)>): Msg {
    if pairs == [] then m else WithTag(Put(m, pairs[..|pairs| - 1]), pairs[|pairs| - 1].0, pairs[|pairs| - 1].1)
  }

  lemma {:induction false} PutFirst(m: Msg, p: (int, string), rest: seq<(int, string)>)
    ensures Put(m, [p] + rest) == Put(WithTag(m, p.0, p.1), rest)
    decreases |rest|
  {
    if rest == [] {
      assert [p] + rest == [p] && [p][..0] == [];
    } else {
      SplitLast([p], rest);
      assert ([p] + rest)[..|rest|] == [p] + rest[..|rest| - 1];
      PutFirst(m, p, rest[..|rest| - 1]);
    }
  }

  function Tokens(pairs: seq<(int, string)>): (t: seq<(int, string)>)
    ensures |t| == |pairs| && forall i | 0 <= i < |t| :: t[i] == (pairs[i].0, Token(pairs[i].1))
  {
    seq(|pairs|, i requires 0 <= i < |pairs| => (pairs[i].0, Token(pairs[i].1)))
  }

  function Stripped(pairs: seq<(int, string)>): (t: seq<(int, string)>)
    ensures |t| == |pairs| && forall i | 0 <= i < |t| :: t[i] == (pairs[i].0, Strip(pairs[i].1))
  {
    seq(|pairs|, i requires 0 <= i < |pairs| => (pairs[i].0, Strip(pairs[i].1)))
  }

  lemma StrippedFirst(pairs: seq<(int, string)>)
    requires pairs != []
    ensures Stripped(pairs) == [(pairs[0].0, Strip(pairs[0].1))] + Stripped(pairs[1..])
    ensures Tokens(pairs) == [(pairs[0].0, Token(pairs[0].1))] + Tokens(pairs[1..])
  {
  }

  ghost predicate NoEmpty(pairs: seq<(int, string)>) {
    forall i | 0 <= i < |pairs| :: pairs[i].1 != ""
  }

  lemma NoEmptyFirst(pairs: seq<(int, string)>)
    requires pairs != []
    ensures NoEmpty(pairs) <==> pairs[0].1 != "" && NoEmpty(pairs[1..])
  {
    assert forall i | 1 <= i < |pairs| :: pairs[i] == pairs[1..][i - 1];
    assert forall i | 0 <= i < |pairs| - 1 :: pairs[1..][i] == pairs[i + 1];
  }

  lemma {:induction false} PiecesRead(m: Msg, pairs: seq<(int, string)>)
    requires Undelimited(pairs)
    ensures ReadPairs(m, Pieces(pairs)) == if NoEmpty(pairs) then Some(Put(m, Tokens(pairs))) else None
    decreases |pairs|
  {
    if pairs != [] {
      var p, rest := pairs[0], pairs[1..];
      PieceReads(m, p.0, p.1, Pieces(rest));
      NoEmptyFirst(pairs);
      if p.1 != "" {
        PiecesRead(WithTag(m, p.0, Token(p.1)), rest);
        StrippedFirst(pairs);
        PutFirst(m, (p.0, Token(p.1)), Tokens(rest));
      }
    }
  }

  lemma {:induction false} WithTagsIsPut(m: Msg, pairs: seq<(int, string)>)
    ensures WithTags(m, pairs) == Put(m, Stripped(pairs))
    decreases |pairs|
  {
    if pairs != [] {
      assert Stripped(pairs)[..|pairs| - 1] == Stripped(pairs[..|pairs| - 1]);
      WithTagsIsPut(m, pairs[..|pairs| - 1]);
    }
  }

  /** The i-th field is the last one with its tag. */
  ghost predicate LastOf(pairs: seq<(int, string)>, i: nat)
    requires i < |pairs|
  {
    forall j | i < j < |pairs| :: pairs[j].0 != pairs[i].0
  }

  /** What a tag holds after all fields: the value of its last field, or what it held before. */
  lemma {:induction false} PutAt(m: Msg, pairs: seq<(int, string)>, i: nat)
    requires i < |pairs| && LastOf(pairs, i)
    ensures pairs[i].0 in Put(m, pairs).body && Put(m, pairs).body[pairs[i].0] == pairs[i].1
    decreases |pairs|
  {
    if i < |pairs| - 1 {
      PutAt(m, pairs[..|pairs| - 1], i);
      assert pairs[|pairs| - 1].0 != pairs[i].0;
    }
  }

  lemma {:induction false} PutSame(m: Msg, a: seq<(int, string)>, b: seq<(int, string)>, k: int)
    requires |a| == |b| && forall i | 0 <= i < |a| :: a[i].0 == b[i].0 && (LastOf(a, i) ==> a[i].1 == b[i].1)
    ensures k in Put(m, a).body <==> k in Put(m, b).body
    ensures k in Put(m, a).body ==> Put(m, a).body[k] == Put(m, b).body[k]
    ensures Put(m, a).(body := map[]) == Put(m, b).(body := map[])
  {
    PutHeader(m, a);
    PutHeader(m, b);
    if i: nat :| i < |a| && a[i].0 == k && LastOf(a, i) {
      assert LastOf(b, i);
      PutAt(m, a, i);
      PutAt(m, b, i);
    } else {
      if j: nat :| j < |a| && a[j].0 == k {
        LastExists(a, j);
      }
      PutOther(m, a, k);
      PutOther(m, b, k);
    }
  }

  lemma {:induction false} LastExists(a: seq<(int, string)>, j: nat)
    requires j < |a|
    ensures exists i: nat | i < |a| :: a[i].0 == a[j].0 && LastOf(a, i)
    decreases |a| - j
  {
    if k: nat :| j < k < |a| && a[k].0 == a[j].0 {
      LastExists(a, k);
    } else {
      assert LastOf(a, j);
    }
  }

  lemma {:induction false} PutOther(m: Msg, a: seq<(int, string)>, k: int)
    requires forall i | 0 <= i < |a| :: a[i].0 != k
    ensures k in Put(m, a).body <==> k in m.body
    ensures k in m.body ==> Put(m, a).body[k] == m.body[k]
    decreases |a|
  {
    if a != [] {
      PutOther(m, a[..|a| - 1], k);
    }
  }

  lemma {:induction false} PutHeader(m: Msg, a: seq<(int, string)>)
    ensures Put(m, a).(body := map[]) == m.(body := map[])
    decreases |a|
  {
    if a != [] {
      PutHeader(m, a[..|a| - 1]);
    }
  }

  /** Two lists of fields with the same tags fill a message alike exactly when they agree on the last field of
      every tag. */
  lemma PutAgrees(m: Msg, a: seq<(int, string)>, b: seq<(int, string)>)
    requires |a| == |b| && forall i | 0 <= i < |a| :: a[i].0 == b[i].0
    ensures Put(m, a) == Put(m, b) <==> forall i | 0 <= i < |a| && LastOf(a, i) :: a[i].1 == b[i].1
  {
    if Put(m, a) == Put(m, b) {
      forall i | 0 <= i < |a| && LastOf(a, i) ensures a[i].1 == b[i].1 {
        assert LastOf(b, i);
        PutAt(m, a, i);
        PutAt(m, b, i);
      }
    }
    if forall i | 0 <= i < |a| && LastOf(a, i) :: a[i].1 == b[i].1 {
      forall k: int
        ensures k in Put(m, a).body <==> k in Put(m, b).body
        ensures k in Put(m, a).body ==> Put(m, a).body[k] == Put(m, b).body[k]
      {
        PutSame(m, a, b, k);
      }
      PutSame(m, a, b, 0);
      assert Put(m, a).body == Put(m, b).body;
    }
  }

  lemma LineReads(m: Msg, pairs: seq<(int, string)>)
    requires Undelimited(pairs)
    ensures ReadPairs(m, Split(Fields(pairs), FIX_DELIMITER)) ==
            if NoEmpty(pairs) then Some(Put(m, Tokens(pairs))) else None
  {
    SplitFields(pairs);
    PiecesRead(m, pairs);
  }

  lemma BufferReads(m: Msg, pairs: seq<(int, string)>)
    requires Undelimited(pairs)
    ensures Read(Clean(m), Fields(pairs)) == Some(Clean(WithTags(m, pairs)))
  {
    ReadFields(m, pairs, "");
    assert Fields(pairs) + "" == Fields(pairs);
  }

  /** In the last field of every tag nothing but '=' follows the first '='. */
  ghost predicate LastOnlyEquals(pairs: seq<(int, string)>) {
    forall i: nat | i < |pairs| && LastOf(pairs, i) :: OnlyEqualsAfter(pairs[i].1)
  }

  lemma TokensAreTags(m: Msg, pairs: seq<(int, string)>)
    ensures Put(m, Tokens(pairs)) == WithTags(m, pairs) <==> LastOnlyEquals(pairs)
  {
    WithTagsIsPut(m, pairs);
    PutAgrees(m, Tokens(pairs), Stripped(pairs));
    forall i: nat | i < |pairs|
      ensures LastOf(pairs, i) <==> LastOf(Tokens(pairs), i)
      ensures Tokens(pairs)[i].1 == Stripped(pairs)[i].1 <==> OnlyEqualsAfter(pairs[i].1)
    {
      TokenIsStrip(pairs[i].1);
    }
  }

  /** A line of printed fields is read by splitting as it is by scanning if and only if no value is empty and, in
      the last field of every tag, nothing but '=' follows the first '='. */
  lemma LineLikeBuffer(m: Msg, pairs: seq<(int, string)>)
    requires Undelimited(pairs)
    ensures var line := ReadPairs(m, Split(Fields(pairs), FIX_DELIMITER));
            var buffer := Read(Clean(m), Fields(pairs));
            && buffer == Some(Clean(WithTags(m, pairs)))
            && (line == Some(buffer.value.msg) <==> NoEmpty(pairs) && LastOnlyEquals(pairs))
  {
    LineReads(m, pairs);
    BufferReads(m, pairs);
    TokensAreTags(m, pairs);
  }

  /** No value is empty, yet the two differ: of `58=a=b` splitting keeps "a" and scanning "ab". */
  lemma LineUnlikeBuffer(m: Msg)
    ensures ReadPairs(m, Split(Fields([(58, "a=b")]), FIX_DELIMITER)) == Some(WithTag(m, 58, "a"))
    ensures Read(Clean(m), Fields([(58, "a=b")])) == Some(Clean(WithTag(m, 58, "ab")))
  {
    var pairs := [(58, "a=b")];
    LineReads(m, pairs);
    BufferReads(m, pairs);
    assert pairs[..0] == [] && Tokens(pairs)[..0] == [];
    assert Find("=b", FIX_EQUALS) == 0 && "a=b"[1..] == "=b" && Token("a=b") == "a";
    assert "=b"[1..] == "b" && "b"[1..] == "" && Strip("b") == "b" && Strip("=b") == "b" && Strip("a=b") == "ab";
  }

  /** A field that is lost because it comes in the second of two buffers, the first being empty. */
  lemma LostInSecondBuffer()
    ensures ParseOne(EMPTY, Joined("", Field(58, "x"))) == Some(EMPTY)
    ensures ParseOne(EMPTY, Field(58, "x")) == Some(WithTag(EMPTY, 58, "x"))
  {
    StripPlain("x");
    ReadField(EMPTY, 58, "x", "");
    assert Field(58, "x") + "" == Field(58, "x");
  }

  // ----- The header -----

  const MOVED: set<int> :=
    {TAG_VERSION, TAG_MESSAGE_TYPE, TAG_SEQUENCE_NUMBER, TAG_SENDING_TIME, TAG_SENDER_COMPID, TAG_TARGET_COMPID}

  /** What `initialiseHeader` makes of a message that has all header tags. */
  lemma HeaderOf(m: Msg)
    requires MOVED <= m.body.Keys
    ensures Header(m) ==
            match StoI(m.body[TAG_SEQUENCE_NUMBER])
            case None => None
            case Some(n) => Some(Msg(FixVersionFromString(m.body[TAG_VERSION]), ToSize(n),
                                     MessageTypeFromString(m.body[TAG_MESSAGE_TYPE]), m.body[TAG_SENDER_COMPID],
                                     m.body[TAG_TARGET_COMPID], m.body[TAG_SENDING_TIME], m.body - MOVED))
  {
    var b := m.body;
    var b2 := (b - {TAG_VERSION}) - {TAG_MESSAGE_TYPE};
    var m2 := m.(fixVersion := FixVersionFromString(b[TAG_VERSION]),
                 messageType := MessageTypeFromString(b[TAG_MESSAGE_TYPE]), body := b2);
    HeaderKinds(m);
    TakeSequence(m2);
    match StoI(b[TAG_SEQUENCE_NUMBER])
    case None =>
    case Some(n) =>
      IdsLeft(b);
      HeaderIds(m2.(sequenceNumber := ToSize(n), body := b2 - {TAG_SEQUENCE_NUMBER}));
  }

  lemma TakeSequence(m: Msg)
    requires TAG_SEQUENCE_NUMBER in m.body
    ensures TakeTag(m, TAG_SEQUENCE_NUMBER) ==
            match StoI(m.body[TAG_SEQUENCE_NUMBER])
            case None => None
            case Some(n) => Some(m.(sequenceNumber := ToSize(n), body := m.body - {TAG_SEQUENCE_NUMBER}))
  {
  }

  lemma IdsLeft(b: map<int, string>)
    requires MOVED <= b.Keys
    ensures var left := ((b - {TAG_VERSION}) - {TAG_MESSAGE_TYPE}) - {TAG_SEQUENCE_NUMBER};
            && {TAG_SENDING_TIME, TAG_SENDER_COMPID, TAG_TARGET_COMPID} <= left.Keys
            && left[TAG_SENDING_TIME] == b[TAG_SENDING_TIME] && left[TAG_SENDER_COMPID] == b[TAG_SENDER_COMPID]
            && left[TAG_TARGET_COMPID] == b[TAG_TARGET_COMPID]
            && left - {TAG_SENDING_TIME, TAG_SENDER_COMPID, TAG_TARGET_COMPID} == b - MOVED
  {
    AllMoved(b);
  }

  lemma AllMoved(b: map<int, string>)
    ensures ((b - {TAG_VERSION}) - {TAG_MESSAGE_TYPE}) - {TAG_SEQUENCE_NUMBER}
            - {TAG_SENDING_TIME, TAG_SENDER_COMPID, TAG_TARGET_COMPID} == b - MOVED
  {
  }

  lemma HeaderKinds(m: Msg)
    requires {TAG_VERSION, TAG_MESSAGE_TYPE} <= m.body.Keys
    ensures Then(TakeTag(m, TAG_VERSION), TAG_MESSAGE_TYPE) ==
            Some(m.(fixVersion := FixVersionFromString(m.body[TAG_VERSION]),
                    messageType := MessageTypeFromString(m.body[TAG_MESSAGE_TYPE]),
                    body := (m.body - {TAG_VERSION}) - {TAG_MESSAGE_TYPE}))
  {
  }

  lemma HeaderIds(m: Msg)
    requires {TAG_SENDING_TIME, TAG_SENDER_COMPID, TAG_TARGET_COMPID} <= m.body.Keys
    ensures Then(Then(TakeTag(m, TAG_SENDING_TIME), TAG_SENDER_COMPID), TAG_TARGET_COMPID) ==
            Some(m.(sendingTime := m.body[TAG_SENDING_TIME], senderCompId := m.body[TAG_SENDER_COMPID],
                    targetCompId := m.body[TAG_TARGET_COMPID],
                    body := m.body - {TAG_SENDING_TIME, TAG_SENDER_COMPID, TAG_TARGET_COMPID}))
  {
    assert ((m.body - {TAG_SENDING_TIME}) - {TAG_SENDER_COMPID}) - {TAG_TARGET_COMPID} ==
           m.body - {TAG_SENDING_TIME, TAG_SENDER_COMPID, TAG_TARGET_COMPID};
  }

  // ----- A printed message -----

  /** The values that can be printed and read back, whatever else is in them; '=' is allowed. */
  ghost predicate Printable(m: Msg, order: seq<int>) {
    && Tabled(m) && Enumerates(order, m.body)
    && (forall k | k in m.body :: IsInt(k) && k !in MOVED && k != TAG_BODY_LENGTH && k != TAG_BODY_CHECKSUM)
    && (forall k | k in m.body :: FIX_DELIMITER !in m.body[k])
    && FIX_DELIMITER !in m.senderCompId && FIX_DELIMITER !in m.targetCompId && FIX_DELIMITER !in m.sendingTime
  }

  function StripAll(b: map<int, string>): map<int, string> {
    map k | k in b :: Strip(b[k])
  }

  /** The message as its reader sees it: no '=' in any value, and the tags 9 and 10 in the body. */
  function Received(m: Msg, order: seq<int>): Msg
    requires Tabled(m) && forall k | 0 <= k < |order| :: order[k] in m.body
  {
    Msg(m.fixVersion, m.sequenceNumber, m.messageType, Strip(m.senderCompId), Strip(m.targetCompId), Strip(m.sendingTime),
        StripAll(m.body)[TAG_BODY_LENGTH := ToDec(|Fields(Counted(m, order))|)]
                        [TAG_BODY_CHECKSUM := CheckSum(Fields(Leading(m, order)))])
  }

  /** The same message, with only tags 9 and 10 added. */
  function Stamped(m: Msg, order: seq<int>): Msg
    requires Tabled(m) && forall k | 0 <= k < |order| :: order[k] in m.body
  {
    m.(body := m.body[TAG_BODY_LENGTH := ToDec(|Fields(Counted(m, order))|)]
                     [TAG_BODY_CHECKSUM := CheckSum(Fields(Leading(m, order)))])
  }

  ghost predicate NoEquals(m: Msg) {
    && FIX_EQUALS !in m.senderCompId && FIX_EQUALS !in m.targetCompId && FIX_EQUALS !in m.sendingTime
    && (forall k | k in m.body :: FIX_EQUALS !in m.body[k])
  }

  lemma StripAllSame(b: map<int, string>)
    ensures StripAll(b) == b <==> forall k | k in b :: FIX_EQUALS !in b[k]
  {
    forall k | k in b ensures Strip(b[k]) == b[k] <==> FIX_EQUALS !in b[k] {
      StripPlain(b[k]);
    }
    assert (forall k | k in b :: StripAll(b)[k] == b[k]) ==> StripAll(b) == b;
  }

  lemma SameWithout(a: map<int, string>, b: map<int, string>, x: string, y: string)
    requires a.Keys == b.Keys && TAG_BODY_LENGTH !in a && TAG_BODY_CHECKSUM !in a
    ensures a[TAG_BODY_LENGTH := x][TAG_BODY_CHECKSUM := y] == b[TAG_BODY_LENGTH := x][TAG_BODY_CHECKSUM := y] <==> a == b
  {
    var c, d := a[TAG_BODY_LENGTH := x][TAG_BODY_CHECKSUM := y], b[TAG_BODY_LENGTH := x][TAG_BODY_CHECKSUM := y];
    if c == d {
      forall k | k in a ensures a[k] == b[k] {
        assert c[k] == a[k] && d[k] == b[k];
      }
    }
  }

  /** Nothing but the two tags is added exactly when no value holds an '='. */
  lemma ReceivedIsStamped(m: Msg, order: seq<int>)
    requires Printable(m, order)
    ensures Received(m, order) == Stamped(m, order) <==> NoEquals(m)
  {
    StripPlain(m.senderCompId);
    StripPlain(m.targetCompId);
    StripPlain(m.sendingTime);
    StripAllSame(m.body);
    SameWithout(StripAll(m.body), m.body, ToDec(|Fields(Counted(m, order))|), CheckSum(Fields(Leading(m, order))));
  }

  /** What reading the listed tags adds. */
  function TagsKept(b: map<int, string>, order: seq<int>): map<int, string> {
    map k | k in b && k in order :: Strip(b[k])
  }

  lemma KeptLast(base: map<int, string>, b: map<int, string>, order: seq<int>, last: int)
    requires last in b
    ensures (base + TagsKept(b, order))[last := Strip(b[last])] == base + TagsKept(b, order + [last])
  {
  }

  /** The body tags are read into the map in any order with the same result. */
  lemma {:induction false} BodyTags(m: Msg, b: map<int, string>, order: seq<int>)
    requires forall k | 0 <= k < |order| :: order[k] in b
    ensures WithTags(m, Body(b, order)) == m.(body := m.body + TagsKept(b, order))
    decreases |order|
  {
    if order == [] {
      assert m.body + TagsKept(b, order) == m.body;
    } else {
      var before, last := order[..|order| - 1], order[|order| - 1];
      assert Body(b, order)[..|order| - 1] == Body(b, before) && before + [last] == order;
      BodyTags(m, b, before);
      KeptLast(m.body, b, before, last);
    }
  }

  lemma {:induction false} WithTagsConcat(m: Msg, a: seq<(int, string)>, b: seq<(int, string)>)
    ensures WithTags(m, a + b) == WithTags(WithTags(m, a), b)
    decreases |b|
  {
    if b == [] {
      assert a + b == a;
    } else {
      SplitLast(a, b);
      assert (a + b)[..|a + b| - 1] == a + b[..|b| - 1];
      WithTagsConcat(m, a, b[..|b| - 1]);
    }
  }

  lemma WithTagsStep(m: Msg, all: seq<(int, string)>, k: nat)
    requires k < |all|
    ensures WithTags(m, all[..k + 1]) == WithTag(WithTags(m, all[..k]), all[k].0, Strip(all[k].1))
  {
    assert all[..k + 1][..k] == all[..k];
  }

  lemma ToDecStrip(n: int)
    ensures Plain(ToDec(n)) && Strip(ToDec(n)) == ToDec(n)
  {
    ToDecPlain(n, FIX_EQUALS);
    ToDecPlain(n, FIX_DELIMITER);
    StripPlain(ToDec(n));
  }

  lemma CheckSumPlain(s: string)
    ensures Plain(CheckSum(s)) && Strip(CheckSum(s)) == CheckSum(s)
  {
    var d := ToDec(Remainder(Sum(s), 256));
    ToDecStrip(Remainder(Sum(s), 256));
    var c := CheckSum(s);
    forall i | 0 <= i < |c| ensures c[i] != FIX_EQUALS && c[i] != FIX_DELIMITER {
      if i >= |c| - |d| {
        assert c[i] == c[|c| - |d|..][i - (|c| - |d|)];
        assert c[i] in d;
      }
    }
    StripPlain(c);
  }

  /** The texts of the seven header fields. */
  datatype Head = Head(version: string, length: string, kind: string, number: string,
                       sender: string, time: string, target: string)

  function HeadOf(m: Msg, order: seq<int>): Head
    requires Tabled(m) && forall k | 0 <= k < |order| :: order[k] in m.body
  {
    Head(VERSION_STRINGS[m.fixVersion], ToDec(|Fields(Counted(m, order))|), MESSAGE_TYPE_STRINGS[m.messageType],
         ToDec(m.sequenceNumber), m.senderCompId, m.sendingTime, m.targetCompId)
  }

  function HeadPairs(h: Head): seq<(int, string)> {
    [(TAG_VERSION, h.version), (TAG_BODY_LENGTH, h.length), (TAG_MESSAGE_TYPE, h.kind), (TAG_SEQUENCE_NUMBER, h.number),
     (TAG_SENDER_COMPID, h.sender), (TAG_SENDING_TIME, h.time), (TAG_TARGET_COMPID, h.target)]
  }

  function Seven(h: Head): map<int, string> {
    map[TAG_VERSION := Strip(h.version), TAG_BODY_LENGTH := Strip(h.length), TAG_MESSAGE_TYPE := Strip(h.kind),
        TAG_SEQUENCE_NUMBER := Strip(h.number), TAG_SENDER_COMPID := Strip(h.sender), TAG_SENDING_TIME := Strip(h.time),
        TAG_TARGET_COMPID := Strip(h.target)]
  }

  lemma SevenTags(h: Head)
    ensures WithTags(EMPTY, HeadPairs(h)) == EMPTY.(body := Seven(h))
  {
    var all := HeadPairs(h);
    WithTagsStep(EMPTY, all, 0);
    WithTagsStep(EMPTY, all, 1);
    WithTagsStep(EMPTY, all, 2);
    WithTagsStep(EMPTY, all, 3);
    WithTagsStep(EMPTY, all, 4);
    WithTagsStep(EMPTY, all, 5);
    WithTagsStep(EMPTY, all, 6);
    assert all[..0] == [] && all[..7] == all;
  }

  lemma LeadingIs(m: Msg, order: seq<int>)
    requires Tabled(m) && forall k | 0 <= k < |order| :: order[k] in m.body
    ensures Leading(m, order) == HeadPairs(HeadOf(m, order)) + Body(m.body, order)
  {
    var pairs := HeadPairs(HeadOf(m, order));
    assert Leading(m, order) == pairs[..2] + Counted(m, order);
    assert Counted(m, order) == pairs[2..] + Body(m.body, order);
    Associative(pairs[..2], pairs[2..], Body(m.body, order));
    assert pairs[..2] + pairs[2..] == pairs;
  }

  lemma KeptAll(b: map<int, string>, order: seq<int>)
    requires Enumerates(order, b)
    ensures TagsKept(b, order) == StripAll(b)
  {
    forall k | k in b ensures k in order {}
  }

  lemma LeadingTags(m: Msg, order: seq<int>)
    requires Printable(m, order)
    ensures WithTags(EMPTY, Leading(m, order)) == EMPTY.(body := Seven(HeadOf(m, order)) + StripAll(m.body))
  {
    var h := HeadOf(m, order);
    LeadingIs(m, order);
    SevenTags(h);
    WithTagsConcat(EMPTY, HeadPairs(h), Body(m.body, order));
    BodyTags(EMPTY.(body := Seven(h)), m.body, order);
    KeptAll(m.body, order);
  }

  /** A message as its reader has it before the header is taken out. */
  function Raw(h: Head, body: map<int, string>, checksum: string): Msg {
    EMPTY.(body := (Seven(h) + body)[TAG_BODY_CHECKSUM := checksum])
  }

  ghost predicate Avoids(body: map<int, string>) {
    forall k | k in body :: k !in MOVED && k != TAG_BODY_LENGTH && k != TAG_BODY_CHECKSUM
  }

  lemma RawMoved(h: Head, body: map<int, string>, checksum: string)
    requires Avoids(body)
    ensures var raw := Raw(h, body, checksum).body;
            && MOVED <= raw.Keys
            && raw[TAG_VERSION] == Strip(h.version) && raw[TAG_MESSAGE_TYPE] == Strip(h.kind)
            && raw[TAG_SEQUENCE_NUMBER] == Strip(h.number) && raw[TAG_SENDER_COMPID] == Strip(h.sender)
            && raw[TAG_SENDING_TIME] == Strip(h.time) && raw[TAG_TARGET_COMPID] == Strip(h.target)
  {
    forall k | k in MOVED ensures k in Seven(h) && k !in body && k != TAG_BODY_CHECKSUM {
    }
  }

  lemma RawBody(h: Head, body: map<int, string>, checksum: string)
    requires Avoids(body)
    ensures Raw(h, body, checksum).body - MOVED == body[TAG_BODY_LENGTH := Strip(h.length)][TAG_BODY_CHECKSUM := checksum]
  {
    assert Seven(h).Keys == MOVED + {TAG_BODY_LENGTH};
    SevenRest(Seven(h), body, checksum);
  }

  lemma SevenRest(seven: map<int, string>, body: map<int, string>, checksum: string)
    requires Avoids(body) && seven.Keys == MOVED + {TAG_BODY_LENGTH}
    ensures (seven + body)[TAG_BODY_CHECKSUM := checksum] - MOVED ==
            body[TAG_BODY_LENGTH := seven[TAG_BODY_LENGTH]][TAG_BODY_CHECKSUM := checksum]
  {
  }

  lemma HeaderOfHead(h: Head, body: map<int, string>, checksum: string)
    requires Avoids(body) && h.number == Strip(h.number)
    ensures Header(Raw(h, body, checksum)) ==
            match StoI(h.number)
            case None => None
            case Some(n) =>
              Some(Msg(FixVersionFromString(Strip(h.version)), ToSize(n), MessageTypeFromString(Strip(h.kind)),
                       Strip(h.sender), Strip(h.target), Strip(h.time),
                       body[TAG_BODY_LENGTH := Strip(h.length)][TAG_BODY_CHECKSUM := checksum]))
  {
    RawBody(h, body, checksum);
    RawMoved(h, body, checksum);
    HeaderOf(Raw(h, body, checksum));
  }

  /** The header comes out as printed, unless the sequence number no longer fits an int. */
  lemma HeaderOfRaw(m: Msg, order: seq<int>)
    requires Printable(m, order)
    ensures Header(Raw(HeadOf(m, order), StripAll(m.body), CheckSum(Fields(Leading(m, order))))) ==
            if m.sequenceNumber <= INT_MAX then Some(Received(m, order)) else None
  {
    HeadStripped(m, order);
    HeaderOfHead(HeadOf(m, order), StripAll(m.body), CheckSum(Fields(Leading(m, order))));
    StoIOfToDec(m.sequenceNumber);
    VersionRoundTrip(m.fixVersion);
    MessageTypeRoundTrip(m.messageType);
  }

  lemma HeadStripped(m: Msg, order: seq<int>)
    requires Tabled(m) && forall k | 0 <= k < |order| :: order[k] in m.body
    ensures var h := HeadOf(m, order);
            && Plain(h.version) && Plain(h.length) && Plain(h.kind) && Plain(h.number)
            && Strip(h.version) == h.version && Strip(h.length) == h.length
            && Strip(h.kind) == h.kind && Strip(h.number) == h.number
  {
    var h := HeadOf(m, order);
    TablesPlain(m.fixVersion);
    TablesPlain(m.messageType);
    StripPlain(h.version);
    StripPlain(h.kind);
    ToDecStrip(|Fields(Counted(m, order))|);
    ToDecStrip(m.sequenceNumber);
  }

  lemma LeadingReadable(m: Msg, order: seq<int>)
    requires Printable(m, order)
    ensures Readable(Leading(m, order))
  {
    HeadStripped(m, order);
    LeadingIs(m, order);
    HeadReadable(HeadOf(m, order));
    assert Readable(Body(m.body, order));
    ReadableConcat(HeadPairs(HeadOf(m, order)), Body(m.body, order));
  }

  lemma ReadableConcat(a: seq<(int, string)>, b: seq<(int, string)>)
    requires Readable(a) && Readable(b)
    ensures Readable(a + b)
  {
  }

  lemma HeadReadable(h: Head)
    requires Plain(h.version) && Plain(h.length) && Plain(h.kind) && Plain(h.number)
    requires FIX_DELIMITER !in h.sender && FIX_DELIMITER !in h.time && FIX_DELIMITER !in h.target
    ensures Readable(HeadPairs(h))
  {
  }

  // ----- Reading one printed message -----

  lemma ParsePrinted(m: Msg, order: seq<int>)
    requires Printable(m, order)
    ensures ParseOne(EMPTY, Print(m, order)) == if m.sequenceNumber <= INT_MAX then Some(Received(m, order)) else None
  {
    var checksum := CheckSum(Fields(Leading(m, order)));
    LeadingReadable(m, order);
    LeadingTags(m, order);
    CheckSumPlain(Fields(Leading(m, order)));
    ReadFields(EMPTY, Leading(m, order), Field(TAG_BODY_CHECKSUM, checksum));
    assert Field(TAG_BODY_CHECKSUM, checksum) + "" == Field(TAG_BODY_CHECKSUM, checksum);
    ReadField(WithTags(EMPTY, Leading(m, order)), TAG_BODY_CHECKSUM, checksum, "");
    HeaderOfRaw(m, order);
  }

  // ----- Scanning printed messages -----

  /** A sender with an '=' in its comp id is received under another one. */
  lemma LostEquals()
    ensures var m := EMPTY.(senderCompId := "a=b");
            && Printable(m, []) && Received(m, []).senderCompId == "ab"
            && ParseOne(EMPTY, Print(m, [])) == Some(Received(m, []))
  {
    var m := EMPTY.(senderCompId := "a=b");
    assert "a=b"[1..] == "=b" && "=b"[1..] == "b" && "b"[1..] == "";
    assert Strip("b") == "b" && Strip("=b") == "b" && Strip("a=b") == "ab";
    ParsePrinted(m, []);
  }

  /** A print begins with "8=". */
  lemma PrintBegins(m: Msg, order: seq<int>)
    requires Tabled(m) && forall k | 0 <= k < |order| :: order[k] in m.body
    ensures |Print(m, order)| >= 2 && Print(m, order)[0] == '8' && Print(m, order)[1] == FIX_EQUALS
  {
    var h := HeadOf(m, order);
    LeadingIs(m, order);
    FieldsBegin(h, Body(m.body, order));
  }

  lemma FieldsBegin(h: Head, body: seq<(int, string)>)
    ensures var text := Fields(HeadPairs(h) + body); |text| >= 2 && text[0] == '8' && text[1] == FIX_EQUALS
  {
    var all := HeadPairs(h) + body;
    assert all == [(TAG_VERSION, h.version)] + all[1..];
    FieldsConcat([(TAG_VERSION, h.version)], all[1..]);
    FieldsOne(TAG_VERSION, h.version);
    assert ToDec(TAG_VERSION) == ['8'];
  }

  /** One printed message, wherever it stands in a stream. */
  lemma ScanPrinted(messages: seq<Msg>, m: Msg, order: seq<int>, rest: string, after: char)
    requires Printable(m, order)
    ensures m.sequenceNumber <= INT_MAX ==>
              Go(START.(messages := messages), Print(m, order) + rest, after) ==
              Go(START.(messages := messages + [Received(m, order)]), rest, after)
    ensures m.sequenceNumber > INT_MAX ==>
              Go(START.(messages := messages), Print(m, order) + rest, after).failed
              && Go(START.(messages := messages), Print(m, order) + rest, after).messages == messages
  {
    var s := START.(messages := messages, started := true);
    var leading := Leading(m, order);
    var checksum := CheckSum(Fields(leading));
    PrintBegins(m, order);
    assert Go(START.(messages := messages), Print(m, order) + rest, after) == Go(s, Print(m, order) + rest, after);
    Associative(Fields(leading), Field(TAG_BODY_CHECKSUM, checksum), rest);
    LeadingReadable(m, order);
    LeadingTags(m, order);
    GoFields(s, leading, Field(TAG_BODY_CHECKSUM, checksum) + rest, after);
    var t := s.(reader := Clean(WithTags(EMPTY, leading)), since := s.since + Fields(leading));
    CheckSumPlain(Fields(leading));
    GoCheckSum(t, checksum, rest, after);
    HeaderOfRaw(m, order);
    if m.sequenceNumber > INT_MAX {
      GoFailed(Finish(t.(reader := Reader("10", checksum, true, t.reader.msg), last := true,
                         since := t.since + "10" + [FIX_EQUALS] + checksum),
                      Raw(HeadOf(m, order), StripAll(m.body), checksum)), rest, after);
    }
  }

  // ----- The round trip -----

  /** A message and the order in which its body is enumerated when it is printed. */
  datatype Job = Job(msg: Msg, order: seq<int>)

  ghost predicate Sendable(j: Job) {
    Printable(j.msg, j.order) && j.msg.sequenceNumber <= INT_MAX
  }

  type Sent = j: Job | Sendable(j) ghost witness Job(EMPTY, [])

  ghost function PrintJob(j: Sent): string {
    Print(j.msg, j.order)
  }

  ghost function ReceivedJob(j: Sent): Msg {
    Received(j.msg, j.order)
  }

  ghost function PrintAll(jobs: seq<Sent>): string {
    if jobs == [] then "" else PrintJob(jobs[0]) + PrintAll(jobs[1..])
  }

  ghost function ReceivedAll(jobs: seq<Sent>): (ms: seq<Msg>)
    ensures |ms| == |jobs|
  {
    if jobs == [] then [] else [ReceivedJob(jobs[0])] + ReceivedAll(jobs[1..])
  }

  /** The messages come in the order of the jobs. */
  lemma {:induction false} ReceivedEach(jobs: seq<Sent>, i: nat)
    requires i < |jobs|
    ensures ReceivedAll(jobs)[i] == ReceivedJob(jobs[i])
  {
    if i > 0 { ReceivedEach(jobs[1..], i - 1); }
  }

  lemma ScanJob(messages: seq<Msg>, j: Sent, rest: string, after: char)
    ensures Go(START.(messages := messages), PrintJob(j) + rest, after) ==
            Go(START.(messages := messages + [ReceivedJob(j)]), rest, after)
  {
    ScanPrinted(messages, j.msg, j.order, rest, after);
  }

  lemma {:induction false} ScanJobs(messages: seq<Msg>, jobs: seq<Sent>, rest: string, after: char)
    ensures Go(START.(messages := messages), PrintAll(jobs) + rest, after) ==
            Go(START.(messages := messages + ReceivedAll(jobs)), rest, after)
    decreases |jobs|
  {
    if jobs == [] {
      assert PrintAll(jobs) + rest == rest && messages + ReceivedAll(jobs) == messages;
    } else {
      var j := jobs[0];
      Associative(PrintJob(j), PrintAll(jobs[1..]), rest);
      ScanJob(messages, j, PrintAll(jobs[1..]) + rest, after);
      ScanJobs(messages + [ReceivedJob(j)], jobs[1..], rest, after);
      Associative(messages, [ReceivedJob(j)], ReceivedAll(jobs[1..]));
    }
  }

  /** Scanning the prints of any messages gives these messages in order, and nothing is left over. By
      ReceivedIsStamped each is what was sent, plus the tags 9 and 10, exactly when no value holds an '='. */
  lemma PrintScan(jobs: seq<Sent>)
    ensures ScanAll(PrintAll(jobs)) == START.(messages := ReceivedAll(jobs))
  {
    ScanJobs([], jobs, "", NOTHING);
    assert PrintAll(jobs) + "" == PrintAll(jobs) && [] + ReceivedAll(jobs) == ReceivedAll(jobs);
  }
}
