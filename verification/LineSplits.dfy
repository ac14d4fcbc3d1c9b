/**
 When the text of a line determines the line.

 A measurement is printed without escaping its backslashes, so the comma in front of the
 tags can be taken for an escaped comma of the measurement, and an escaped comma of the
 measurement for the one in front of the tags.  The fields and the timestamp are always
 told apart from what comes before them.
 */
module LineSplits {
  import opened Basics
  import opened LineProtocol

  /** Measurement and tags, as they are printed. */
  function Head(line: Line): string {
    EscapeMeasurement(line.measurement) + (if line.tags == [] then "" else "," + JoinTags(line.tags))
  }

  ghost predicate ValidTags(tags: seq<(string, string)>) {
    forall i :: 0 <= i < |tags| ==> ValidKey(tags[i].0)
  }

  predicate DistinctKeys(d: seq<(string, string)>) {
    forall i, j :: 0 <= i < j < |d| ==> d[i].0 != d[j].0
  }

  /** A valid line; with `unique`, one whose tags have different keys, as have all that a
      builder can hold. */
  ghost predicate Holds(line: Line, unique: bool) {
    ValidLine(line) && (unique ==> DistinctKeys(line.tags))
  }

  /** No other line has the same text. */
  ghost predicate Determined(a: Line, unique: bool)
    requires ValidLine(a)
  {
    forall b :: Holds(b, unique) && Print(b) == Print(a) ==> b == a
  }

  // ----- where the fields begin ---------------------------------------------------------

  ghost predicate FieldStart(s: string) {
    exists key: string, rest: string :: ValidKey(key) && s == EscapeValue(key) + ("=" + rest)
  }

  lemma FieldsStart(fields: seq<(string, string)>, end: string)
    requires fields != [] && ValidFields(fields)
    ensures FieldStart(JoinFields(fields) + end)
  {
    var (key, value) := fields[0];
    var more := if |fields| == 1 then "" else "," + JoinFields(fields[1..]);
    SplitPair(EscapeValue(key), value, more, end);
    assert ValidKey(key);
    assert JoinFields(fields) + end == EscapeValue(key) + ("=" + (value + (more + end)));
  }

  lemma TailIsFieldStart(fields: seq<(string, string)>, timestamp: Option<int>)
    requires fields != [] && ValidFields(fields)
    ensures PrintTail(fields, timestamp)[0] == ' ' && FieldStart(PrintTail(fields, timestamp)[1..])
  {
    var end := if timestamp.Some? then " " + Decimal(timestamp.value) else "";
    var text := JoinFields(fields);
    FieldsStart(fields, end);
    SpaceInFront(text, end);
  }

  lemma SpaceInFront(text: string, end: string)
    ensures (" " + text + end)[0] == ' ' && (" " + text + end)[1..] == text + end
  {}

  lemma SameStop(v: string, rest: string, key: string, more: string)
    requires rest != [] && rest[0] in {',', '=', ' '}
    ensures EscapeValue(v) + rest == EscapeValue(key) + ("=" + more) ==> rest == "=" + more
  {
    EscapeValueIsOnePass(v);
    EscapeValueIsOnePass(key);
    ReadEscapedBack(v, {'\\', ',', '=', ' '}, {',', '=', ' '}, rest);
    ReadEscapedBack(key, {'\\', ',', '=', ' '}, {',', '=', ' '}, "=" + more);
  }

  /** The rest of a tag value does not look like a field. */
  lemma NotFieldStart(v: string, rest: string)
    requires rest != [] && rest[0] in {',', ' '}
    ensures !FieldStart(EscapeValue(v) + rest)
  {
    forall key: string, more: string ensures EscapeValue(v) + rest != EscapeValue(key) + ("=" + more) {
      SameStop(v, rest, key, more);
    }
  }

  /** What follows an escaped space is again an escaped text. */
  lemma {:induction false} AfterEscapedSpace(v: string, special: set<char>, p: nat) returns (rest: string)
    requires ' ' in special && p < |Escape(v, special)| && Escape(v, special)[p] == ' '
    ensures Escape(v, special)[p + 1..] == Escape(rest, special)
  {
    var x := if v[0] in special then ['\\', v[0]] else [v[0]];
    assert Escape(v, special) == x + Escape(v[1..], special);
    if p < |x| {
      assert p == |x| - 1;
      rest := v[1..];
    } else {
      rest := AfterEscapedSpace(v[1..], special, p - |x|);
    }
  }

  lemma PairAt(key: string, text: string, more: string, p: nat)
    requires p < |Pair(key, text) + more|
    ensures (Pair(key, text) + more)[p] ==
            if p < |key| then key[p] else if p == |key| then '='
            else if p <= |key| + |text| then text[p - |key| - 1] else more[p - |key| - |text| - 1]
  {}

  lemma NoFieldInFirst(key: string, value: string, more: string, tail: string, q: nat)
    requires q < |EscapeValue(value)| && EscapeValue(value)[q] == ' '
    requires more + tail != [] && (more + tail)[0] in {',', ' '}
    ensures !FieldStart((Pair(key, EscapeValue(value)) + more + tail)[|key| + 1 + q + 1..])
  {
    EscapeValueIsOnePass(value);
    var rest := AfterEscapedSpace(value, {'\\', ',', '=', ' '}, q);
    EscapeValueIsOnePass(rest);
    NotFieldStart(rest, more + tail);
    SplitPair(key, EscapeValue(value), more, tail);
    var text := EscapeValue(value) + (more + tail);
    assert (key + ("=" + text))[|key| + 1 + q + 1..] == text[q + 1..];
    assert text[q + 1..] == EscapeValue(rest) + (more + tail);
  }

  lemma DropFront(e: string, t: string, tail: string, p: nat)
    requires |e| + 1 <= p <= |e| + 1 + |t|
    ensures (e + ("," + t) + tail)[p..] == (t + tail)[p - |e| - 1..]
  {}

  lemma {:induction false} NoFieldInTags(tags: seq<(string, string)>, tail: string, p: nat)
    requires tags != [] && ValidTags(tags) && tail != [] && tail[0] == ' '
    requires p < |JoinTags(tags)| && JoinTags(tags)[p] == ' '
    ensures !FieldStart((JoinTags(tags) + tail)[p + 1..])
  {
    var (key, value) := tags[0];
    var text := EscapeValue(value);
    var more := if |tags| == 1 then "" else "," + JoinTags(tags[1..]);
    PairAt(key, text, more, p);
    if p <= |key| + |text| {
      NoFieldInFirst(key, value, more, tail, p - |key| - 1);
    } else {
      var q := p - |key| - |text| - 2;
      NoFieldInTags(tags[1..], tail, q);
      DropFront(Pair(key, text), JoinTags(tags[1..]), tail, p + 1);
    }
  }

  // ----- heads of measurements ------------------------------------------------------------

  /** No space, and a backslash before every comma. */
  predicate GoodHead(s: string) {
    ' ' !in s && forall k :: 0 <= k < |s| && s[k] == ',' ==> k > 0 && s[k - 1] == '\\'
  }

  /** These are the printed measurements. */
  lemma {:induction false} EscapedIsGood(m: string)
    requires ' ' !in m
    ensures GoodHead(EscapeMeasurement(m))
  {
    EscapeMeasurementIsOnePass(m);
    if m != [] {
      assert ' ' !in m[1..] by { assert forall c :: c in m[1..] ==> c in m; }
      assert m[0] in m;
      EscapedIsGood(m[1..]);
      EscapeMeasurementIsOnePass(m[1..]);
      GoodHeadMore(if m[0] == ',' then ['\\', m[0]] else [m[0]], Escape(m[1..], {',', ' '}));
    }
  }

  lemma GoodHeadMore(x: string, s: string)
    requires GoodHead(s) && (x == ['\\', ','] || (|x| == 1 && x[0] != ',' && x[0] != ' '))
    ensures GoodHead(x + s)
  {
    var t := x + s;
    forall k | 0 <= k < |t| && t[k] == ',' ensures k > 0 && t[k - 1] == '\\' {
      if k >= |x| {
        assert s[k - |x|] == ',';
        assert t[k - 1] == s[k - |x| - 1];
      }
    }
  }

  lemma {:induction false} GoodIsEscaped(s: string)
    requires GoodHead(s)
    ensures var m := ReadMeasurement(s).0; ' ' !in m && EscapeMeasurement(m) == s
  {
    var m := ReadMeasurement(s).0;
    EscapeMeasurementIsOnePass(m);
    if s != [] {
      assert s[0] != ',' && s[0] in s;
      var n := if |s| >= 2 && s[0] == '\\' && s[1] == ',' then 2 else 1;
      GoodHeadLess(s, n);
      GoodIsEscaped(s[n..]);
      EscapeMeasurementIsOnePass(ReadMeasurement(s[n..]).0);
      assert m == [s[n - 1]] + ReadMeasurement(s[n..]).0;
      assert m[1..] == ReadMeasurement(s[n..]).0;
      assert s == s[..n] + s[n..];
    }
  }

  lemma GoodHeadLess(s: string, n: nat)
    requires GoodHead(s) && 1 <= n <= |s|
    requires if |s| >= 2 && s[0] == '\\' && s[1] == ',' then n == 2 else n == 1
    ensures GoodHead(s[n..])
  {
    var t := s[n..];
    assert forall c :: c in t ==> c in s;
    forall k | 0 <= k < |t| && t[k] == ',' ensures k > 0 && t[k - 1] == '\\' {
      assert s[n + k] == ',' && s[n + k - 1] == '\\';
    }
  }

  lemma MeasurementReadsBack(m: string)
    requires ' ' !in m
    ensures ReadMeasurement(EscapeMeasurement(m)) == (m, "")
  {
    EscapeMeasurementIsOnePass(m);
    ReadPastMeasurement(m, "");
    assert Escape(m, {',', ' '}) + "" == Escape(m, {',', ' '}) && m + [] == m;
  }

  // ----- the head is told from the tail ----------------------------------------------------

  lemma HeadAt(line: Line, p: nat)
    requires p < |Head(line)|
    ensures var e := EscapeMeasurement(line.measurement);
            if p < |e| then Head(line)[p] == e[p]
            else line.tags != [] && Head(line)[p] == if p == |e| then ',' else JoinTags(line.tags)[p - |e| - 1]
  {}

  lemma NoFieldInHead(line: Line, tail: string, p: nat)
    requires ValidLine(line) && tail != [] && tail[0] == ' ' && p < |Head(line)| && Head(line)[p] == ' '
    ensures !FieldStart((Head(line) + tail)[p + 1..])
  {
    var e := EscapeMeasurement(line.measurement);
    EscapedIsGood(line.measurement);
    HeadAt(line, p);
    NoFieldInTags(line.tags, tail, p - |e| - 1);
    DropFront(e, JoinTags(line.tags), tail, p + 1);
  }

  ghost predicate FieldsBeginAt(text: string, p: nat) {
    p < |text| && text[p] == ' ' && FieldStart(text[p + 1..])
  }

  lemma FieldsAfterHead(line: Line)
    requires ValidLine(line)
    ensures FieldsBeginAt(Print(line), |Head(line)|)
  {
    var tail := PrintTail(line.fields, line.timestamp);
    TailIsFieldStart(line.fields, line.timestamp);
    assert Print(line) == Head(line) + tail;
    assert Print(line)[|Head(line)| + 1..] == tail[1..];
  }

  lemma NoFieldsBefore(line: Line, p: nat)
    requires ValidLine(line) && p < |Head(line)|
    ensures !FieldsBeginAt(Print(line), p)
  {
    var tail := PrintTail(line.fields, line.timestamp);
    TailIsFieldStart(line.fields, line.timestamp);
    assert Print(line) == Head(line) + tail;
    if Print(line)[p] == ' ' {
      NoFieldInHead(line, tail, p);
    }
  }

  lemma HeadNotShorter(a: Line, b: Line)
    requires ValidLine(a) && ValidLine(b) && Print(a) == Print(b)
    ensures |Head(a)| >= |Head(b)|
  {
    FieldsAfterHead(a);
    if |Head(a)| < |Head(b)| {
      NoFieldsBefore(b, |Head(a)|);
    }
  }

  /** Lines with the same text have the same head, fields and timestamp. */
  lemma SameHead(a: Line, b: Line)
    requires ValidLine(a) && ValidLine(b) && Print(a) == Print(b)
    ensures Head(a) == Head(b) && a.fields == b.fields && a.timestamp == b.timestamp
  {
    HeadNotShorter(a, b);
    HeadNotShorter(b, a);
    var s, t := PrintTail(a.fields, a.timestamp), PrintTail(b.fields, b.timestamp);
    assert Print(a) == Head(a) + s && Print(b) == Head(b) + t;
    assert Print(a)[..|Head(a)|] == Head(a) && Print(b)[..|Head(a)|] == Head(b);
    assert Print(a)[|Head(a)|..] == s && Print(b)[|Head(a)|..] == t;
    ReadTailBack(a);
    ReadTailBack(a.(fields := b.fields, timestamp := b.timestamp));
  }

  // ----- where the tags begin ---------------------------------------------------------------

  /** The tags that a text is the printed form of, if there are any. */
  function TagsIn(s: string): Option<seq<(string, string)>> {
    match ReadTags(s + " ")
    case None => None
    case Some((tags, rest)) =>
      if tags != [] && (forall i :: 0 <= i < |tags| ==> ValidKey(tags[i].0)) && JoinTags(tags) == s then Some(tags) else None
  }

  lemma TagsInJoined(tags: seq<(string, string)>)
    requires tags != [] && ValidTags(tags)
    ensures TagsIn(JoinTags(tags)) == Some(tags)
  {
    ReadTagsBack(tags, " ");
  }

  /** The head can be split here: what comes before is a printed measurement, and what
      comes behind, if anything, is a comma and printed tags. */
  predicate SplitsAt(head: string, i: nat, unique: bool)
    requires i <= |head|
  {
    && GoodHead(head[..i])
    && (i < |head| ==>
          && head[i] == ','
          && TagsIn(head[i + 1..]).Some?
          && (unique ==> DistinctKeys(TagsIn(head[i + 1..]).value)))
  }

  /** Where the line itself is split. */
  function OwnSplit(line: Line): nat {
    |EscapeMeasurement(line.measurement)|
  }

  lemma OwnSplitParts(line: Line)
    requires ValidLine(line)
    ensures var i, head := OwnSplit(line), Head(line);
            && i <= |head| && head[..i] == EscapeMeasurement(line.measurement)
            && (i == |head| <==> line.tags == [])
            && (i < |head| ==> head[i] == ',' && head[i + 1..] == JoinTags(line.tags) && TagsIn(head[i + 1..]) == Some(line.tags))
  {
    var e := EscapeMeasurement(line.measurement);
    if line.tags == [] {
      assert Head(line) == e;
    } else {
      assert Head(line) == e + ("," + JoinTags(line.tags));
      TagsInJoined(line.tags);
    }
  }

  lemma OwnSplitIsOne(line: Line, unique: bool)
    requires Holds(line, unique)
    ensures OwnSplit(line) <= |Head(line)| && SplitsAt(Head(line), OwnSplit(line), unique)
  {
    OwnSplitParts(line);
    EscapedIsGood(line.measurement);
  }

  /** Lines with the same text that are split at the same place are the same. */
  lemma SameSplitSameLine(a: Line, b: Line)
    requires ValidLine(a) && ValidLine(b) && Print(a) == Print(b) && OwnSplit(a) == OwnSplit(b)
    ensures a == b
  {
    SameHead(a, b);
    OwnSplitParts(a);
    OwnSplitParts(b);
    MeasurementReadsBack(a.measurement);
    MeasurementReadsBack(b.measurement);
  }

  /** The line that another split of the head stands for. */
  function LineAt(a: Line, i: nat): Line
    requires i <= |Head(a)| && SplitsAt(Head(a), i, false)
  {
    Line(ReadMeasurement(Head(a)[..i]).0, if i == |Head(a)| then [] else TagsIn(Head(a)[i + 1..]).value, a.fields, a.timestamp)
  }

  lemma EverySplitIsALine(a: Line, i: nat, unique: bool)
    requires Holds(a, unique) && i <= |Head(a)| && SplitsAt(Head(a), i, unique)
    ensures var b := LineAt(a, i); Holds(b, unique) && Print(b) == Print(a) && OwnSplit(b) == i
  {
    var b, head := LineAt(a, i), Head(a);
    GoodIsEscaped(head[..i]);
    if i == |head| {
      assert head[..i] == head;
    } else {
      assert head == head[..i] + ([','] + head[i + 1..]);
    }
    assert Head(b) == head;
  }

  /** The text determines the line if and only if its head can be split at one place only. */
  lemma DeterminedExactly(a: Line, unique: bool)
    requires Holds(a, unique)
    ensures Determined(a, unique) <==> forall i :: 0 <= i <= |Head(a)| && SplitsAt(Head(a), i, unique) ==> i == OwnSplit(a)
  {
    if forall i :: 0 <= i <= |Head(a)| && SplitsAt(Head(a), i, unique) ==> i == OwnSplit(a) {
      forall b | Holds(b, unique) && Print(b) == Print(a) ensures b == a {
        SameHead(a, b);
        OwnSplitIsOne(b, unique);
        SameSplitSameLine(a, b);
      }
    } else {
      var i :| 0 <= i <= |Head(a)| && SplitsAt(Head(a), i, unique) && i != OwnSplit(a);
      EverySplitIsALine(a, i, unique);
      assert LineAt(a, i) != a;
    }
  }

  /** In particular for a measurement without commas, if the comma in front of the tags
      stands. */
  lemma PlainLineIsDetermined(a: Line, unique: bool)
    requires Holds(a, unique) && ',' !in a.measurement && SeparatorStands(a)
    ensures Determined(a, unique)
  {
    var m, head := a.measurement, Head(a);
    EscapeMeasurementIsOnePass(m);
    EscapePlain(m, {',', ' '});
    DeterminedExactly(a, unique);
    forall i | |m| < i <= |head| ensures !GoodHead(head[..i]) {
      HeadAt(a, |m|);
      assert head[..i][|m|] == ',';
      if |m| > 0 {
        HeadAt(a, |m| - 1);
        assert head[..i][|m| - 1] == m[|m| - 1];
      }
    }
    forall i | 0 <= i < |m| && i < |head| ensures head[i] != ',' {
      HeadAt(a, i);
      assert m[i] in m;
    }
    OwnSplitParts(a);
  }

  lemma {:induction false} EscapeChars(v: string, special: set<char>)
    ensures forall c :: c in Escape(v, special) ==> c in v || c == '\\'
    ensures forall c :: c in v ==> c in Escape(v, special)
  {
    if v != [] {
      EscapeChars(v[1..], special);
      var x := if v[0] in special then ['\\', v[0]] else [v[0]];
      assert Escape(v, special) == x + Escape(v[1..], special);
      assert v == [v[0]] + v[1..];
      assert v[0] in x;
    }
  }

  lemma PlainHead(a: Line)
    requires ValidLine(a) && ',' !in a.measurement && |a.tags| == 1
    ensures Head(a) == a.measurement + ("," + (a.tags[0].0 + ("=" + EscapeValue(a.tags[0].1))))
    ensures OwnSplit(a) == |a.measurement|
  {
    EscapeMeasurementIsOnePass(a.measurement);
    EscapePlain(a.measurement, {',', ' '});
    var text := Pair(a.tags[0].0, EscapeValue(a.tags[0].1));
    assert JoinTags(a.tags) == text + "" == text;
  }

  lemma SpaceInHead(m: string, key: string, value: string)
    requires ' ' in value
    ensures ' ' in m + ("," + (key + ("=" + EscapeValue(value))))
  {
    var text := EscapeValue(value);
    EscapeValueIsOnePass(value);
    EscapeChars(value, {'\\', ',', '=', ' '});
    var k :| 0 <= k < |text| && text[k] == ' ';
    assert (m + ("," + (key + ("=" + text))))[|m| + 1 + |key| + 1 + k] == ' ';
  }

  lemma OneCommaInHead(m: string, key: string, value: string, i: nat)
    requires ',' !in m && ',' !in key && ',' !in value
    requires i < |m + ("," + (key + ("=" + EscapeValue(value))))| && (m + ("," + (key + ("=" + EscapeValue(value)))))[i] == ','
    ensures i == |m|
  {
    EscapeValueIsOnePass(value);
    EscapeChars(value, {'\\', ',', '=', ' '});
    OnlyComma(m, key, EscapeValue(value), i);
  }

  /** A line need not read back for its text to determine it: with a measurement without
      commas and one tag whose value has a space and no comma, it does not matter how the
      measurement ends. */
  lemma SpaceTellsThemApart(a: Line, unique: bool)
    requires Holds(a, unique) && ',' !in a.measurement && |a.tags| == 1
    requires ' ' in a.tags[0].1 && ',' !in a.tags[0].1
    ensures Determined(a, unique)
  {
    var m, head := a.measurement, Head(a);
    var (key, value) := a.tags[0];
    PlainHead(a);
    assert ',' !in key;
    SpaceInHead(m, key, value);
    assert head[..|head|] == head;
    forall i | 0 <= i < |head| && head[i] == ',' ensures i == OwnSplit(a) {
      OneCommaInHead(m, key, value, i);
    }
    DeterminedExactly(a, unique);
  }

  lemma OnlyComma(m: string, key: string, text: string, i: nat)
    requires ',' !in m && ',' !in key && ',' !in text
    requires i < |m + ("," + (key + ("=" + text)))| && (m + ("," + (key + ("=" + text))))[i] == ','
    ensures i == |m|
  {
    var rest := key + ("=" + text);
    assert ',' !in rest;
    CharAt(m, rest, i);
  }

  lemma CharAt(m: string, rest: string, i: nat)
    requires i < |m + ("," + rest)|
    ensures (m + ("," + rest))[i] == if i < |m| then m[i] else if i == |m| then ',' else rest[i - |m| - 1]
  {}
}
