/**
 The line protocol text that `LineBuilder.build` prints, and a reader for it.

 The printer escapes with chains of `str.replace` calls.  The reader splits a line at
 the first delimiter that is not escaped.  The main result, `ReadsBackExactly`, says
 for which lines reading gives back what was printed: for all but those that have tags
 and a measurement ending in a backslash.
 */
module LineProtocol {
  import opened Basics

  /** `fields` holds the values as printed, see `FieldValue`. */
  datatype Line = Line(measurement: string, tags: seq<(string, string)>, fields: seq<(string, string)>,
                       timestamp: Option<int>)

  // ----- printing ---------------------------------------------------------------

  /** Python's `s.replace(c, with)` for a one-character pattern. */
  function Replace(s: string, c: char, with: string): string {
    if s == [] then []
    else (if s[0] == c then with else [s[0]]) + Replace(s[1..], c, with)
  }

  function EscapeMeasurement(s: string): string {
    Replace(Replace(s, ',', "\\,"), ' ', "\\ ")
  }

  /** Used for tag values and for field keys. */
  function EscapeValue(s: string): string {
    Replace(Replace(Replace(Replace(s, '\\', "\\\\"), ',', "\\,"), '=', "\\="), ' ', "\\ ")
  }

  function EscapeString(s: string): string {
    Replace(Replace(s, '\\', "\\\\"), '"', "\\\"")
  }

  function Pair(key: string, value: string): string { key + ("=" + value) }

  function JoinTags(tags: seq<(string, string)>): string
    requires tags != []
  {
    Pair(tags[0].0, EscapeValue(tags[0].1)) + (if |tags| == 1 then "" else "," + JoinTags(tags[1..]))
  }

  function JoinFields(fields: seq<(string, string)>): string
    requires fields != []
  {
    Pair(EscapeValue(fields[0].0), fields[0].1) + (if |fields| == 1 then "" else "," + JoinFields(fields[1..]))
  }

  function Digits(n: nat): string {
    if n < 10 then [DigitChar(n)] else Digits(n / 10) + [DigitChar(n % 10)]
  }

  function DigitChar(d: nat): char
    requires d < 10
  {
    ('0' as int + d) as char
  }

  function Decimal(n: int): string {
    if n < 0 then "-" + Digits(-n) else Digits(n)
  }

  /** The tail of a line, from the field section on. */
  function PrintTail(fields: seq<(string, string)>, timestamp: Option<int>): string
    requires fields != []
  {
    " " + JoinFields(fields) + (if timestamp.Some? then " " + Decimal(timestamp.value) else "")
  }

  function Print(line: Line): string
    requires line.fields != []
  {
    EscapeMeasurement(line.measurement)
    + (if line.tags == [] then "" else "," + JoinTags(line.tags))
    + PrintTail(line.fields, line.timestamp)
  }

  // ----- which lines a builder can hold -------------------------------------------

  predicate ValidKey(key: string): (valid: bool)
    ensures valid <==> key != "" && forall i :: 0 <= i < |key| ==> key[i] != ' ' && key[i] != ',' && key[i] != '='
  {
    key != [] && ' ' !in key && ',' !in key && '=' !in key
  }

  /** A printed field value: a quoted string or a bare word. */
  ghost predicate ValidToken(t: string) {
    || (exists s: string :: t == "\"" + EscapeString(s) + "\"")
    || (t != [] && t[0] != '"' && ',' !in t && ' ' !in t)
  }

  ghost predicate ValidLine(line: Line) {
    && ' ' !in line.measurement
    && (forall i :: 0 <= i < |line.tags| ==> ValidKey(line.tags[i].0))
    && ValidFields(line.fields)
    && line.fields != []
  }

  ghost predicate ValidFields(fields: seq<(string, string)>) {
    forall i :: 0 <= i < |fields| ==> ValidKey(fields[i].0) && ValidToken(fields[i].1)
  }

  // ----- reading ------------------------------------------------------------------

  /** Reads up to the first space or unescaped comma; only a comma can be escaped. */
  function ReadMeasurement(s: string): (r: (string, string))
    ensures |r.1| <= |s|
  {
    if s == [] then ([], [])
    else if |s| >= 2 && s[0] == '\\' && s[1] == ',' then
      var (m, rest) := ReadMeasurement(s[2..]); ([','] + m, rest)
    else if s[0] == ' ' || s[0] == ',' then ([], s)
    else var (m, rest) := ReadMeasurement(s[1..]); ([s[0]] + m, rest)
  }

  /** Reads up to the first character of `stops` that no backslash precedes, taking
      each backslash away. */
  function ReadEscaped(s: string, stops: set<char>): (r: (string, string))
    ensures |r.1| <= |s|
  {
    if s == [] then ([], [])
    else if |s| >= 2 && s[0] == '\\' then
      var (v, rest) := ReadEscaped(s[2..], stops); ([s[1]] + v, rest)
    else if s[0] in stops then ([], s)
    else var (v, rest) := ReadEscaped(s[1..], stops); ([s[0]] + v, rest)
  }

  /** Reads up to the first character of `stops`. */
  function ReadUntil(s: string, stops: set<char>): (r: (string, string))
    ensures |r.1| <= |s|
  {
    if s == [] || s[0] in stops then ([], s)
    else var (v, rest) := ReadUntil(s[1..], stops); ([s[0]] + v, rest)
  }

  /** Reads a quoted string up to and including its closing quote, as it stands. */
  function ReadQuoted(s: string): (r: (string, string))
    ensures |r.1| <= |s|
  {
    if s == [] then ([], [])
    else if |s| >= 2 && s[0] == '\\' then
      var (v, rest) := ReadQuoted(s[2..]); (s[..2] + v, rest)
    else if s[0] == '"' then ("\"", s[1..])
    else var (v, rest) := ReadQuoted(s[1..]); ([s[0]] + v, rest)
  }

  function ReadToken(s: string): (r: (string, string))
    ensures |r.1| <= |s|
  {
    if s != [] && s[0] == '"' then var (v, rest) := ReadQuoted(s[1..]); ("\"" + v, rest)
    else ReadUntil(s, {',', ' '})
  }

  function ReadTags(s: string): (r: Option<(seq<(string, string)>, string)>)
    decreases |s|
  {
    var (key, afterKey) := ReadUntil(s, {'='});
    if afterKey == [] then None else
    var (value, afterValue) := ReadEscaped(afterKey[1..], {',', ' '});
    if afterValue == [] || afterValue[0] != ',' then Some(([(key, value)], afterValue)) else
    match ReadTags(afterValue[1..])
    case None => None
    case Some((tags, rest)) => Some(([(key, value)] + tags, rest))
  }

  function ReadFields(s: string): (r: Option<(seq<(string, string)>, string)>)
    decreases |s|
  {
    var (key, afterKey) := ReadEscaped(s, {'='});
    if afterKey == [] then None else
    var (value, afterValue) := ReadToken(afterKey[1..]);
    if afterValue == [] || afterValue[0] != ',' then Some(([(key, value)], afterValue)) else
    match ReadFields(afterValue[1..])
    case None => None
    case Some((fields, rest)) => Some(([(key, value)] + fields, rest))
  }

  function ReadDigits(s: string): Option<nat> {
    if s == [] || !('0' <= s[|s| - 1] <= '9') then None else
    var last := s[|s| - 1] as int - '0' as int;
    if |s| == 1 then Some(last) else
    match ReadDigits(s[..|s| - 1])
    case None => None
    case Some(n) => Some(10 * n + last)
  }

  function ReadDecimal(s: string): Option<int> {
    if s != [] && s[0] == '-' then
      match ReadDigits(s[1..]) { case None => None case Some(n) => Some(0 - n as int) }
    else
      match ReadDigits(s) { case None => None case Some(n) => Some(n) }
  }

  function ReadTail(measurement: string, tags: seq<(string, string)>, s: string): Option<Line> {
    if s == [] || s[0] != ' ' then None else
    match ReadFields(s[1..])
    case None => None
    case Some((fields, rest)) =>
      if rest == [] then Some(Line(measurement, tags, fields, None))
      else if rest[0] != ' ' then None
      else match ReadDecimal(rest[1..])
        case None => None
        case Some(n) => Some(Line(measurement, tags, fields, Some(n)))
  }

  function Read(s: string): (r: Option<Line>) {
    var (measurement, rest) := ReadMeasurement(s);
    if rest == [] || rest[0] != ',' then ReadTail(measurement, [], rest) else
    match ReadTags(rest[1..])
    case None => None
    case Some((tags, tail)) => ReadTail(measurement, tags, tail)
  }

  // ----- the escape chains are single-pass substitutions ----------------------------

  /** Puts a backslash before every special character, in one pass. */
  function Escape(s: string, special: set<char>): string {
    if s == [] then []
    else (if s[0] in special then ['\\', s[0]] else [s[0]]) + Escape(s[1..], special)
  }

  lemma {:induction false} ReplaceConcat(a: string, b: string, c: char, with: string)
    ensures Replace(a + b, c, with) == Replace(a, c, with) + Replace(b, c, with)
  {
    if a == [] {
      assert a + b == b;
    } else {
      assert (a + b)[1..] == a[1..] + b;
      ReplaceConcat(a[1..], b, c, with);
    }
  }

  lemma ReplaceOne(x: char, c: char, with: string)
    ensures Replace([x], c, with) == if x == c then with else [x]
  {
    assert Replace([x], c, with) == (if x == c then with else [x]) + Replace([x][1..], c, with);
  }

  lemma ReplaceTwo(x: char, y: char, c: char, with: string)
    ensures Replace([x, y], c, with) == (if x == c then with else [x]) + (if y == c then with else [y])
  {
    assert [x, y] == [x] + [y];
    ReplaceConcat([x], [y], c, with);
    ReplaceOne(x, c, with);
    ReplaceOne(y, c, with);
  }

  /** The order of the chain matters: the backslash goes first. */
  lemma {:induction false} EscapeValueIsOnePass(s: string)
    ensures EscapeValue(s) == Escape(s, {'\\', ',', '=', ' '})
  {
    if s != [] {
      var x, rest := [s[0]], s[1..];
      assert s == x + rest;
      EscapeValueIsOnePass(rest);
      var x1, r1 := Replace(x, '\\', "\\\\"), Replace(rest, '\\', "\\\\");
      var x2, r2 := Replace(x1, ',', "\\,"), Replace(r1, ',', "\\,");
      var x3, r3 := Replace(x2, '=', "\\="), Replace(r2, '=', "\\=");
      ReplaceConcat(x, rest, '\\', "\\\\");
      ReplaceConcat(x1, r1, ',', "\\,");
      ReplaceConcat(x2, r2, '=', "\\=");
      ReplaceConcat(x3, r3, ' ', "\\ ");
      EscapeValueOfOne(s[0]);
    }
  }

  lemma EscapeValueOfOne(x: char)
    ensures EscapeValue([x]) == if x in {'\\', ',', '=', ' '} then ['\\', x] else [x]
  {
    ReplaceOne(x, '\\', "\\\\");
    if x == '\\' {
      ReplaceTwo('\\', '\\', ',', "\\,");
      ReplaceTwo('\\', '\\', '=', "\\=");
      ReplaceTwo('\\', '\\', ' ', "\\ ");
    } else {
      ReplaceOne(x, ',', "\\,");
      if x == ',' {
        ReplaceTwo('\\', ',', '=', "\\=");
        ReplaceTwo('\\', ',', ' ', "\\ ");
      } else {
        ReplaceOne(x, '=', "\\=");
        if x == '=' {
          ReplaceTwo('\\', '=', ' ', "\\ ");
        } else {
          ReplaceOne(x, ' ', "\\ ");
        }
      }
    }
  }

  lemma {:induction false} EscapeStringIsOnePass(s: string)
    ensures EscapeString(s) == Escape(s, {'\\', '"'})
  {
    if s != [] {
      var x, rest := [s[0]], s[1..];
      assert s == x + rest;
      EscapeStringIsOnePass(rest);
      ReplaceConcat(x, rest, '\\', "\\\\");
      ReplaceConcat(Replace(x, '\\', "\\\\"), Replace(rest, '\\', "\\\\"), '"', "\\\"");
      ReplaceOne(s[0], '\\', "\\\\");
      if s[0] == '\\' {
        ReplaceTwo('\\', '\\', '"', "\\\"");
      } else {
        ReplaceOne(s[0], '"', "\\\"");
      }
    }
  }

  lemma {:induction false} EscapeMeasurementIsOnePass(s: string)
    ensures EscapeMeasurement(s) == Escape(s, {',', ' '})
  {
    if s != [] {
      var x, rest := [s[0]], s[1..];
      assert s == x + rest;
      EscapeMeasurementIsOnePass(rest);
      ReplaceConcat(x, rest, ',', "\\,");
      ReplaceConcat(Replace(x, ',', "\\,"), Replace(rest, ',', "\\,"), ' ', "\\ ");
      ReplaceOne(s[0], ',', "\\,");
      if s[0] == ',' {
        ReplaceTwo('\\', ',', ' ', "\\ ");
      } else {
        ReplaceOne(s[0], ' ', "\\ ");
      }
    }
  }

  lemma {:induction false} EscapeConcat(a: string, b: string, special: set<char>)
    ensures Escape(a + b, special) == Escape(a, special) + Escape(b, special)
  {
    if a == [] {
      assert a + b == b;
    } else {
      assert (a + b)[1..] == a[1..] + b;
      EscapeConcat(a[1..], b, special);
    }
  }

  lemma {:induction false} EscapePlain(s: string, special: set<char>)
    requires forall c :: c in s ==> c !in special
    ensures Escape(s, special) == s
  {
    if s != [] {
      assert s[0] in s && forall c :: c in s[1..] ==> c in s;
      EscapePlain(s[1..], special);
    }
  }

  // ----- printing, said outright ------------------------------------------------------

  function Power10(k: nat): nat {
    if k == 0 then 1 else 10 * Power10(k - 1)
  }

  /** Each digit counts by its place, from the right. */
  function PlaceValue(t: string): int {
    if t == [] then 0 else (t[0] as int - '0' as int) * Power10(|t| - 1) + PlaceValue(t[1..])
  }

  ghost predicate IsNumeral(t: string, n: nat) {
    && t != [] && (forall i :: 0 <= i < |t| ==> '0' <= t[i] <= '9')
    && PlaceValue(t) == n && (|t| > 1 ==> t[0] != '0')
  }

  ghost predicate IsInteger(t: string, n: int) {
    if n < 0 then t != [] && t[0] == '-' && IsNumeral(t[1..], -n) else IsNumeral(t, n)
  }

  lemma {:induction false} PlaceValueMore(t: string, c: char)
    ensures PlaceValue(t + [c]) == 10 * PlaceValue(t) + (c as int - '0' as int)
  {
    if t == [] {
      assert t + [c] == [c] && [c][1..] == [];
      assert Power10(0) == 1;
    } else {
      assert (t + [c])[1..] == t[1..] + [c];
      PlaceValueMore(t[1..], c);
      TimesTen(t[0] as int - '0' as int, Power10(|t| - 1));
    }
  }

  lemma TimesTen(d: int, p: int)
    ensures d * (10 * p) == 10 * (d * p)
  {}

  lemma {:induction false} DigitsByPlace(n: nat)
    ensures IsNumeral(Digits(n), n) && (n > 0 ==> Digits(n)[0] != '0')
  {
    if n < 10 {
      assert Digits(n) == [] + [DigitChar(n)];
      PlaceValueMore([], DigitChar(n));
    } else {
      DigitsByPlace(n / 10);
      PlaceValueMore(Digits(n / 10), DigitChar(n % 10));
    }
  }

  lemma DecimalByPlace(n: int)
    ensures IsInteger(Decimal(n), n)
  {
    DigitsByPlace(if n < 0 then -n else n);
    if n < 0 { assert Decimal(n)[1..] == Digits(-n); }
  }

  /** What one more character adds to an escaped text. */
  lemma EscapesByCharacter(s: string, c: char)
    ensures EscapeMeasurement(s + [c]) == EscapeMeasurement(s) + (if c == ',' || c == ' ' then ['\\', c] else [c])
    ensures EscapeValue(s + [c]) ==
            EscapeValue(s) + (if c == '\\' || c == ',' || c == '=' || c == ' ' then ['\\', c] else [c])
    ensures EscapeString(s + [c]) == EscapeString(s) + (if c == '\\' || c == '"' then ['\\', c] else [c])
    ensures EscapeMeasurement([]) == EscapeValue([]) == EscapeString([]) == []
  {
    EscapeMeasurementIsOnePass(s);
    EscapeMeasurementIsOnePass(s + [c]);
    EscapeValueIsOnePass(s);
    EscapeValueIsOnePass(s + [c]);
    EscapeStringIsOnePass(s);
    EscapeStringIsOnePass(s + [c]);
    EscapeMore(s, c, {',', ' '});
    EscapeMore(s, c, {'\\', ',', '=', ' '});
    EscapeMore(s, c, {'\\', '"'});
  }

  lemma EscapeMore(s: string, c: char, special: set<char>)
    ensures Escape(s + [c], special) == Escape(s, special) + (if c in special then ['\\', c] else [c])
  {
    EscapeConcat(s, [c], special);
    assert [c][1..] == [];
  }

  lemma PairInFull(key: string, value: string)
    ensures "," + Pair(key, value) == "," + key + "=" + value
    ensures " " + Pair(key, value) == " " + key + "=" + value
  {
    assert "," + (key + ("=" + value)) == "," + key + "=" + value;
    assert " " + (key + ("=" + value)) == " " + key + "=" + value;
  }

  lemma Regrouped(a: string, c: string, b: string, x: string)
    ensures a + (c + (b + x)) == a + (c + b) + x
  {}

  lemma {:induction false} OneMoreTag(tags: seq<(string, string)>, key: string, value: string)
    requires tags != []
    ensures JoinTags(tags + [(key, value)]) == JoinTags(tags) + ("," + Pair(key, EscapeValue(value)))
  {
    var more := tags + [(key, value)];
    assert more[0] == tags[0] && more[1..] == tags[1..] + [(key, value)];
    if |tags| == 1 {
      assert more[1..] == [(key, value)];
      assert JoinTags([(key, value)]) == Pair(key, EscapeValue(value));
    } else {
      OneMoreTag(tags[1..], key, value);
      Regrouped(Pair(tags[0].0, EscapeValue(tags[0].1)), ",", JoinTags(tags[1..]), "," + Pair(key, EscapeValue(value)));
    }
  }

  lemma {:induction false} OneMoreField(fields: seq<(string, string)>, key: string, text: string)
    requires fields != []
    ensures JoinFields(fields + [(key, text)]) == JoinFields(fields) + ("," + Pair(EscapeValue(key), text))
  {
    var more := fields + [(key, text)];
    assert more[0] == fields[0] && more[1..] == fields[1..] + [(key, text)];
    if |fields| == 1 {
      assert more[1..] == [(key, text)];
      assert JoinFields([(key, text)]) == Pair(EscapeValue(key), text);
    } else {
      OneMoreField(fields[1..], key, text);
      Regrouped(Pair(EscapeValue(fields[0].0), fields[0].1), ",", JoinFields(fields[1..]), "," + Pair(EscapeValue(key), text));
    }
  }

  /** What one more tag adds to the text of a line, in front of the fields. */
  lemma TagPrints(line: Line, key: string, value: string, head: string)
    requires line.fields != [] && Print(line) == head + PrintTail(line.fields, line.timestamp)
    ensures Print(line.(tags := line.tags + [(key, value)])) ==
            head + ("," + key + "=" + EscapeValue(value)) + PrintTail(line.fields, line.timestamp)
  {
    var m, tail := EscapeMeasurement(line.measurement), PrintTail(line.fields, line.timestamp);
    var added := "," + Pair(key, EscapeValue(value));
    PairInFull(key, EscapeValue(value));
    if line.tags == [] {
      assert line.tags + [(key, value)] == [(key, value)];
      SameFront(m + "", head, tail);
      assert m + "" == m;
    } else {
      SameFront(m + ("," + JoinTags(line.tags)), head, tail);
      OneMoreTag(line.tags, key, value);
      Regrouped(m, ",", JoinTags(line.tags), added);
    }
  }

  lemma SameFront(a: string, b: string, tail: string)
    requires a + tail == b + tail
    ensures a == b
  {
    assert a == (a + tail)[..|a|] && b == (b + tail)[..|b|];
  }

  /** What the first field, one more field and the timestamp add. */
  lemma FirstFieldPrints(measurement: string, key: string, text: string)
    ensures Print(Line(measurement, [], [(key, text)], None)) ==
            EscapeMeasurement(measurement) + (" " + EscapeValue(key) + "=" + text)
  {
    PairInFull(EscapeValue(key), text);
    var m, pair := EscapeMeasurement(measurement), Pair(EscapeValue(key), text);
    assert JoinFields([(key, text)]) == pair + "" == pair;
    assert PrintTail([(key, text)], None) == " " + pair + "" == " " + pair;
    assert m + "" == m;
  }

  lemma FieldPrints(line: Line, key: string, text: string)
    requires line.fields != [] && line.timestamp == None
    ensures Print(line.(fields := line.fields + [(key, text)])) == Print(line) + ("," + EscapeValue(key) + "=" + text)
  {
    var added := "," + Pair(EscapeValue(key), text);
    PairInFull(EscapeValue(key), text);
    OneMoreField(line.fields, key, text);
    TailGrows(" ", JoinFields(line.fields), added);
    var head := EscapeMeasurement(line.measurement) + (if line.tags == [] then "" else "," + JoinTags(line.tags));
    Associative(head, PrintTail(line.fields, None), added);
  }

  lemma TailGrows(a: string, b: string, x: string)
    ensures a + (b + x) + "" == a + b + "" + x
  {}

  lemma TimePrints(line: Line, t: int)
    requires line.fields != [] && line.timestamp == None
    ensures Print(line.(timestamp := Some(t))) == Print(line) + (" " + Decimal(t))
  {
    var head := EscapeMeasurement(line.measurement) + (if line.tags == [] then "" else "," + JoinTags(line.tags));
    var tail := " " + JoinFields(line.fields);
    assert tail + "" == tail;
    Associative(head, tail, " " + Decimal(t));
  }

  // ----- each part of a line reads back ---------------------------------------------

  predicate Delimits(rest: string, stops: set<char>) {
    rest == [] || rest[0] in stops
  }

  lemma {:induction false} ReadEscapedBack(v: string, special: set<char>, stops: set<char>, rest: string)
    requires stops <= special && '\\' in special && '\\' !in stops
    requires Delimits(rest, stops)
    ensures ReadEscaped(Escape(v, special) + rest, stops) == (v, rest)
  {
    var text := Escape(v, special) + rest;
    if v == [] {
      assert text == rest;
    } else {
      var tail := Escape(v[1..], special) + rest;
      ReadEscapedBack(v[1..], special, stops, rest);
      if v[0] in special {
        assert text == ['\\', v[0]] + tail;
        assert text[2..] == tail;
      } else {
        assert text == [v[0]] + tail;
        assert text[1..] == tail;
      }
      assert v == [v[0]] + v[1..];
    }
  }

  lemma {:induction false} ReadUntilBack(v: string, stops: set<char>, rest: string)
    requires forall c :: c in v ==> c !in stops
    requires Delimits(rest, stops)
    ensures ReadUntil(v + rest, stops) == (v, rest)
  {
    if v == [] {
      assert v + rest == rest;
    } else {
      assert v[0] in v;
      assert (v + rest)[1..] == v[1..] + rest;
      assert forall c :: c in v[1..] ==> c in v;
      ReadUntilBack(v[1..], stops, rest);
      assert v == [v[0]] + v[1..];
    }
  }

  /** Reading goes past one character that may not end a quoted string. */
  lemma ReadPastQuoted(x: string, e: string, rest: string)
    requires (|x| == 1 && x[0] !in {'\\', '"'}) || (|x| == 2 && x[0] == '\\')
    ensures ReadQuoted(x + e + rest) == (x + ReadQuoted(e + rest).0, ReadQuoted(e + rest).1)
  {
    var text := x + e + rest;
    if |x| == 1 {
      assert x == [text[0]] && text[1..] == e + rest;
    } else {
      assert x == text[..2] && text[2..] == e + rest;
    }
  }

  lemma {:induction false} ReadQuotedBack(s: string, rest: string)
    ensures ReadQuoted(Escape(s, {'\\', '"'}) + ("\"" + rest)) == (Escape(s, {'\\', '"'}) + "\"", rest)
  {
    if s == [] {
      assert [] + ("\"" + rest) == "\"" + rest;
      assert ("\"" + rest)[1..] == rest;
      assert Escape(s, {'\\', '"'}) + "\"" == "\"";
    } else {
      var x := if s[0] in {'\\', '"'} then ['\\', s[0]] else [s[0]];
      var e := Escape(s[1..], {'\\', '"'});
      ReadQuotedBack(s[1..], rest);
      ReadPastQuoted(x, e, "\"" + rest);
      assert (x + e) + "\"" == x + (e + "\"");
    }
  }

  lemma ReadStringTokenBack(s: string, rest: string)
    ensures ReadToken("\"" + EscapeString(s) + "\"" + rest) == ("\"" + EscapeString(s) + "\"", rest)
  {
    EscapeStringIsOnePass(s);
    ReadQuotedBack(s, rest);
    var e := Escape(s, {'\\', '"'});
    var text := "\"" + e + "\"" + rest;
    assert text[1..] == e + ("\"" + rest);
    assert "\"" + e + "\"" == "\"" + (e + "\"");
  }

  lemma ReadTokenBack(t: string, rest: string)
    requires ValidToken(t) && Delimits(rest, {',', ' '})
    ensures ReadToken(t + rest) == (t, rest)
  {
    if s: string :| t == "\"" + EscapeString(s) + "\"" {
      ReadStringTokenBack(s, rest);
    } else {
      ReadUntilBack(t, {',', ' '}, rest);
      assert (t + rest)[0] == t[0];
    }
  }

  lemma SplitPair(key: string, value: string, more: string, rest: string)
    ensures Pair(key, value) + more + rest == key + ("=" + (value + (more + rest)))
  {}

  lemma CommaInFront(text: string, rest: string)
    ensures ("," + text + rest)[0] == ',' && ("," + text + rest)[1..] == text + rest
  {}

  /** One `key=value` of the tag section, the value standing as `text`. */
  lemma ReadTagStep(key: string, value: string, text: string, after: string)
    requires ValidKey(key) && ReadEscaped(text + after, {',', ' '}) == (value, after)
    ensures var r := ReadTags(key + ("=" + (text + after)));
            if after == [] || after[0] != ',' then r == Some(([(key, value)], after))
            else var more := ReadTags(after[1..]);
                 more.Some? ==> r == Some(([(key, value)] + more.value.0, more.value.1))
  {
    ReadUntilBack(key, {'='}, "=" + (text + after));
    assert ("=" + (text + after))[1..] == text + after;
  }

  lemma ReadFirstTag(key: string, value: string, after: string)
    requires ValidKey(key) && Delimits(after, {',', ' '})
    ensures var r := ReadTags(key + ("=" + (EscapeValue(value) + after)));
            if after == [] || after[0] != ',' then r == Some(([(key, value)], after))
            else var more := ReadTags(after[1..]);
                 more.Some? ==> r == Some(([(key, value)] + more.value.0, more.value.1))
  {
    EscapeValueIsOnePass(value);
    ReadEscapedBack(value, {'\\', ',', '=', ' '}, {',', ' '}, after);
    ReadTagStep(key, value, EscapeValue(value), after);
  }

  lemma ReadLastTag(key: string, value: string, rest: string)
    requires ValidKey(key) && rest != [] && rest[0] == ' '
    ensures ReadTags(Pair(key, EscapeValue(value)) + "" + rest) == Some(([(key, value)], rest))
  {
    SplitPair(key, EscapeValue(value), "", rest);
    ReadFirstTag(key, value, rest);
    assert "" + rest == rest;
  }

  lemma ReadMoreTags(key: string, value: string, text: string, tags: seq<(string, string)>, rest: string)
    requires ValidKey(key) && ReadTags(text + rest) == Some((tags, rest))
    ensures ReadTags(Pair(key, EscapeValue(value)) + ("," + text) + rest) == Some(([(key, value)] + tags, rest))
  {
    SplitPair(key, EscapeValue(value), "," + text, rest);
    CommaInFront(text, rest);
    ReadFirstTag(key, value, "," + text + rest);
  }

  lemma {:induction false} ReadTagsBack(tags: seq<(string, string)>, rest: string)
    requires tags != [] && forall i :: 0 <= i < |tags| ==> ValidKey(tags[i].0)
    requires rest != [] && rest[0] == ' '
    ensures ReadTags(JoinTags(tags) + rest) == Some((tags, rest))
  {
    var (key, value) := tags[0];
    if |tags| > 1 {
      ReadTagsBack(tags[1..], rest);
      ReadMoreTags(key, value, JoinTags(tags[1..]), tags[1..], rest);
      assert tags == [tags[0]] + tags[1..];
    } else {
      ReadLastTag(key, value, rest);
      assert tags == [tags[0]];
    }
  }

  /** One `key=value` of the field section, the key standing as `text`. */
  lemma ReadFieldStep(key: string, text: string, value: string, after: string)
    requires ReadEscaped(text + ("=" + (value + after)), {'='}) == (key, "=" + (value + after))
    requires ReadToken(value + after) == (value, after)
    ensures var r := ReadFields(text + ("=" + (value + after)));
            if after == [] || after[0] != ',' then r == Some(([(key, value)], after))
            else var more := ReadFields(after[1..]);
                 more.Some? ==> r == Some(([(key, value)] + more.value.0, more.value.1))
  {
    assert ("=" + (value + after))[1..] == value + after;
  }

  lemma ReadFirstField(key: string, value: string, after: string)
    requires ValidToken(value) && Delimits(after, {',', ' '})
    ensures var r := ReadFields(EscapeValue(key) + ("=" + (value + after)));
            if after == [] || after[0] != ',' then r == Some(([(key, value)], after))
            else var more := ReadFields(after[1..]);
                 more.Some? ==> r == Some(([(key, value)] + more.value.0, more.value.1))
  {
    EscapeValueIsOnePass(key);
    ReadEscapedBack(key, {'\\', ',', '=', ' '}, {'='}, "=" + (value + after));
    ReadTokenBack(value, after);
    ReadFieldStep(key, EscapeValue(key), value, after);
  }

  lemma ReadLastField(key: string, value: string, rest: string)
    requires ValidToken(value) && (rest == [] || rest[0] == ' ')
    ensures ReadFields(Pair(EscapeValue(key), value) + "" + rest) == Some(([(key, value)], rest))
  {
    SplitPair(EscapeValue(key), value, "", rest);
    ReadFirstField(key, value, rest);
    assert "" + rest == rest;
  }

  lemma ReadMoreFields(key: string, value: string, text: string, fields: seq<(string, string)>, rest: string)
    requires ValidToken(value) && ReadFields(text + rest) == Some((fields, rest))
    ensures ReadFields(Pair(EscapeValue(key), value) + ("," + text) + rest) == Some(([(key, value)] + fields, rest))
  {
    SplitPair(EscapeValue(key), value, "," + text, rest);
    CommaInFront(text, rest);
    ReadFirstField(key, value, "," + text + rest);
  }

  lemma {:induction false} ReadFieldsBack(fields: seq<(string, string)>, rest: string)
    requires fields != [] && ValidFields(fields)
    requires rest == [] || rest[0] == ' '
    ensures ReadFields(JoinFields(fields) + rest) == Some((fields, rest))
  {
    var (key, value) := fields[0];
    if |fields| > 1 {
      ReadFieldsBack(fields[1..], rest);
      ReadMoreFields(key, value, JoinFields(fields[1..]), fields[1..], rest);
      assert fields == [fields[0]] + fields[1..];
    } else {
      ReadLastField(key, value, rest);
      assert fields == [fields[0]];
    }
  }

  lemma {:induction false} ReadDigitsBack(n: nat)
    ensures ReadDigits(Digits(n)) == Some(n)
    ensures Digits(n) != [] && forall c :: c in Digits(n) ==> '0' <= c <= '9'
  {
    if n >= 10 {
      ReadDigitsBack(n / 10);
      assert Digits(n)[..|Digits(n)| - 1] == Digits(n / 10);
    }
  }

  lemma ReadDecimalBack(n: int)
    ensures ReadDecimal(Decimal(n)) == Some(n)
    ensures Decimal(n) != [] && forall c :: c in Decimal(n) ==> c == '-' || '0' <= c <= '9'
  {
    if n < 0 {
      ReadDigitsBack(-n);
      assert Decimal(n)[1..] == Digits(-n);
    } else {
      ReadDigitsBack(n);
      assert Digits(n)[0] in Digits(n);
    }
  }

  lemma ReadTailBack(line: Line)
    requires ValidLine(line)
    ensures ReadTail(line.measurement, line.tags, PrintTail(line.fields, line.timestamp)) == Some(line)
  {
    var text := PrintTail(line.fields, line.timestamp);
    var rest := if line.timestamp.Some? then " " + Decimal(line.timestamp.value) else "";
    assert text[1..] == JoinFields(line.fields) + rest;
    ReadFieldsBack(line.fields, rest);
    if line.timestamp.Some? {
      assert rest[1..] == Decimal(line.timestamp.value);
      ReadDecimalBack(line.timestamp.value);
    }
  }

  // ----- the measurement ------------------------------------------------------------

  predicate EndsInBackslash(s: string) {
    s != [] && s[|s| - 1] == '\\'
  }

  lemma ReadPastOne(c: char, rest: string)
    requires c != ' '
    requires !(c == '\\' && rest != [] && rest[0] == ',')
    ensures ReadMeasurement((if c == ',' then ['\\', c] else [c]) + rest) ==
            ([c] + ReadMeasurement(rest).0, ReadMeasurement(rest).1)
  {
    var text := (if c == ',' then ['\\', c] else [c]) + rest;
    if c == ',' {
      assert text[2..] == rest;
    } else {
      assert text[0] == c && text[1..] == rest;
    }
  }

  lemma EscapeHidesSpecial(s: string, special: set<char>)
    requires s != [] && '\\' !in special
    ensures Escape(s, special) != [] && Escape(s, special)[0] !in special
  {}

  lemma Associative(a: string, b: string, c: string)
    ensures a + b + c == a + (b + c)
  {}

  lemma ReadPastFirst(c: char, first: string, e: string, rest: string, m': string, rest': string)
    requires c != ' ' && first == if c == ',' then ['\\', c] else [c]
    requires c == '\\' ==> e + rest == [] || (e + rest)[0] != ','
    requires ReadMeasurement(e + rest) == (m', rest')
    ensures ReadMeasurement(first + e + rest) == ([c] + m', rest')
  {
    Associative(first, e, rest);
    ReadPastOne(c, e + rest);
  }

  lemma EscapeFirst(s: string, special: set<char>)
    requires s != []
    ensures Escape(s, special) == (if s[0] in special then ['\\', s[0]] else [s[0]]) + Escape(s[1..], special)
  {}

  /** Reading passes over a printed measurement and goes on with what follows, unless
      its last backslash takes the comma behind it for escaped. */
  lemma {:induction false} ReadPastMeasurement(m: string, rest: string)
    requires ' ' !in m
    requires !(EndsInBackslash(m) && rest != [] && rest[0] == ',')
    ensures var (m', rest') := ReadMeasurement(rest);
            ReadMeasurement(Escape(m, {',', ' '}) + rest) == (m + m', rest')
  {
    var (m', rest') := ReadMeasurement(rest);
    if m == [] {
      assert Escape(m, {',', ' '}) + rest == rest;
      assert m + m' == m';
    } else {
      var c, tail := m[0], m[1..];
      var e := Escape(tail, {',', ' '});
      assert ' ' !in tail by { assert forall d :: d in tail ==> d in m; }
      ReadPastMeasurement(tail, rest);
      assert c == '\\' ==> e + rest == [] || (e + rest)[0] != ',' by {
        if tail != [] { EscapeHidesSpecial(tail, {',', ' '}); }
      }
      ReadPastFirst(c, if c == ',' then ['\\', c] else [c], e, rest, tail + m', rest');
      EscapeFirst(m, {',', ' '});
      assert m == [c] + tail;
      Associative([c], tail, m');
    }
  }

  /** With tags behind it, a measurement ending in a backslash swallows the comma. */
  lemma BackslashSwallowsComma(m: string, rest: string)
    requires ' ' !in m && EndsInBackslash(m) && rest != [] && rest[0] == ','
    ensures ReadMeasurement(Escape(m, {',', ' '}) + rest).0 != m
  {
    var init := m[..|m| - 1];
    assert m == init + ['\\'];
    EscapeConcat(init, ['\\'], {',', ' '});
    assert Escape(['\\'], {',', ' '}) == ['\\'] + Escape(['\\'][1..], {',', ' '});
    assert Escape(m, {',', ' '}) + rest == Escape(init, {',', ' '}) + (['\\'] + rest);
    forall c | c in init ensures c in m {}
    ReadPastMeasurement(init, ['\\'] + rest);
    var swallowed := ReadMeasurement(['\\'] + rest).0;
    assert swallowed[0] == ',';
    assert (init + swallowed)[|init|] == ',';
  }

  /** The comma in front of the tags is not taken for one of the measurement: there are no
      tags, or the measurement does not end in a backslash. */
  predicate SeparatorStands(line: Line) {
    line.tags == [] || !EndsInBackslash(line.measurement)
  }

  lemma ReadsBackWithoutTags(line: Line)
    requires ValidLine(line) && line.tags == []
    ensures Read(Print(line)) == Some(line)
  {
    var tail := PrintTail(line.fields, line.timestamp);
    assert tail[0] == ' ';
    EscapeMeasurementIsOnePass(line.measurement);
    assert Print(line) == Escape(line.measurement, {',', ' '}) + tail;
    ReadPastMeasurement(line.measurement, tail);
    assert line.measurement + [] == line.measurement;
    ReadTailBack(line);
  }

  lemma ReadTakesTheMeasurement(s: string)
    ensures Read(s).Some? ==> Read(s).value.measurement == ReadMeasurement(s).0
  {}

  lemma ReadInParts(s: string, line: Line, rest: string, tail: string)
    requires ReadMeasurement(s) == (line.measurement, [','] + rest)
    requires ReadTags(rest) == Some((line.tags, tail))
    requires ReadTail(line.measurement, line.tags, tail) == Some(line)
    ensures Read(s) == Some(line)
  {
    assert ([','] + rest)[1..] == rest;
  }

  lemma ReadsBackWithTags(line: Line)
    requires ValidLine(line) && line.tags != []
    ensures Read(Print(line)) == Some(line) <==> !EndsInBackslash(line.measurement)
  {
    var tail := PrintTail(line.fields, line.timestamp);
    var rest := JoinTags(line.tags) + tail;
    assert tail[0] == ' ';
    EscapeMeasurementIsOnePass(line.measurement);
    assert Print(line) == Escape(line.measurement, {',', ' '}) + ([','] + rest);
    if EndsInBackslash(line.measurement) {
      BackslashSwallowsComma(line.measurement, [','] + rest);
      ReadTakesTheMeasurement(Print(line));
    } else {
      ReadPastMeasurement(line.measurement, [','] + rest);
      assert line.measurement + [] == line.measurement;
      ReadTagsBack(line.tags, tail);
      ReadTailBack(line);
      ReadInParts(Print(line), line, rest, tail);
    }
  }

  /** The round trip: reading the printed line gives it back exactly when the comma in
      front of its tags stands. */
  lemma ReadsBackExactly(line: Line)
    requires ValidLine(line)
    ensures Read(Print(line)) == Some(line) <==> SeparatorStands(line)
  {
    if line.tags == [] {
      ReadsBackWithoutTags(line);
    } else {
      ReadsBackWithTags(line);
    }
  }

  /** Two such lines that print alike are the same line. */
  lemma PrintIsInjective(a: Line, b: Line)
    requires ValidLine(a) && ValidLine(b) && SeparatorStands(a) && SeparatorStands(b)
    requires Print(a) == Print(b)
    ensures a == b
  {
    ReadsBackExactly(a);
    ReadsBackExactly(b);
  }

  /** In particular, for measurements without a backslash. */
  lemma PrintIsInjectiveWithoutBackslash(a: Line, b: Line)
    requires ValidLine(a) && ValidLine(b)
    requires '\\' !in a.measurement && '\\' !in b.measurement
    requires Print(a) == Print(b)
    ensures a == b
  {
    PrintIsInjective(a, b);
  }
}
