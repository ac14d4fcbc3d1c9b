/**
 The `LineBuilder` that plugins use to write lines: its setters, its error cases and
 what a whole sequence of calls ends up printing.
 */
module LineBuilding {
  import opened Basics
  import opened LineProtocol
  import opened LineSplits

  // ----- field values -----------------------------------------------------------

  /** The text Python prints for a float that is not handled further here. */
  predicate IsFloatText(t: string) {
    && t != [] && t[0] != '"' && ',' !in t && ' ' !in t
    && t[|t| - 1] != 'i' && t[|t| - 1] != 'u' && t != "t" && t != "f"
  }

  type FloatText = t: string | IsFloatText(t) witness "0.0"

  datatype FieldValue = UInt(u: int) | Int(i: int) | Float(text: FloatText) | Str(s: string) | Bool(b: bool)

  function Render(v: FieldValue): string {
    match v
    case UInt(n) => Decimal(n) + "u"
    case Int(n) => Decimal(n) + "i"
    case Float(text) => text
    case Str(s) => "\"" + EscapeString(s) + "\""
    case Bool(b) => if b then "t" else "f"
  }

  /** The text of a field value, said outright: sign, digits by place value and suffix of an
      integer, one letter for a boolean, a string in quotes with its backslashes and quotes
      escaped. */
  ghost predicate IsTextOf(t: string, v: FieldValue) {
    match v
    case UInt(n) => t != [] && t[|t| - 1] == 'u' && IsInteger(t[..|t| - 1], n)
    case Int(n) => t != [] && t[|t| - 1] == 'i' && IsInteger(t[..|t| - 1], n)
    case Float(text) => t == text
    case Str(s) => t == "\"" + Escape(s, {'\\', '"'}) + "\""
    case Bool(b) => t == if b then "t" else "f"
  }

  lemma RenderIsText(v: FieldValue)
    ensures IsTextOf(Render(v), v)
  {
    match v
    case UInt(n) =>
      DecimalByPlace(n);
      assert Render(v)[..|Render(v)| - 1] == Decimal(n);
    case Int(n) =>
      DecimalByPlace(n);
      assert Render(v)[..|Render(v)| - 1] == Decimal(n);
    case Float(text) =>
    case Str(s) => EscapeStringIsOnePass(s);
    case Bool(b) =>
  }

  function ReadValue(t: string): Option<FieldValue> {
    if t == [] then None
    else if t == "t" || t == "f" then Some(Bool(t == "t"))
    else if t[0] == '"' then Some(Str(ReadEscaped(t[1..], {'"'}).0))
    else if t[|t| - 1] == 'u' || t[|t| - 1] == 'i' then
      match ReadDecimal(t[..|t| - 1])
      case None => None
      case Some(n) => Some(if t[|t| - 1] == 'u' then UInt(n) else Int(n))
    else if IsFloatText(t) then Some(Float(t))
    else None
  }

  lemma NumberReadsBack(n: int, suffix: char)
    requires suffix == 'u' || suffix == 'i'
    ensures var t := Decimal(n) + [suffix];
            ValidToken(t) && ReadValue(t) == Some(if suffix == 'u' then UInt(n) else Int(n))
  {
    var d := Decimal(n);
    var t := d + [suffix];
    ReadDecimalBack(n);
    assert t[..|t| - 1] == d;
    assert t[0] == d[0] && d[0] in d;
  }

  lemma StringReadsBack(s: string)
    ensures var t := "\"" + EscapeString(s) + "\""; ValidToken(t) && ReadValue(t) == Some(Str(s))
  {
    var t := "\"" + EscapeString(s) + "\"";
    var e := Escape(s, {'\\', '"'});
    EscapeStringIsOnePass(s);
    ReadEscapedBack(s, {'\\', '"'}, {'"'}, "\"");
    QuoteInFront(e);
    assert t[0] == '"' && |t| >= 2;
  }

  lemma QuoteInFront(e: string)
    ensures ("\"" + e + "\"")[1..] == e + "\""
  {}

  /** A printed value is a token of the line protocol and tells type and value. */
  lemma RenderReadsBack(v: FieldValue)
    ensures ValidToken(Render(v)) && ReadValue(Render(v)) == Some(v)
  {
    match v
    case UInt(n) => NumberReadsBack(n, 'u');
    case Int(n) => NumberReadsBack(n, 'i');
    case Float(text) =>
    case Str(s) => StringReadsBack(s);
    case Bool(b) => assert Render(v)[0] != '"';
  }

  // ----- ordered dictionaries -----------------------------------------------------

  function Keys(d: seq<(string, string)>): (k: seq<string>)
    ensures |k| == |d|
  {
    if d == [] then [] else [d[0].0] + Keys(d[1..])
  }

  function Lookup(d: seq<(string, string)>, key: string): Option<string> {
    if d == [] then None
    else if d[0].0 == key then Some(d[0].1)
    else Lookup(d[1..], key)
  }

  /** `d[key] = value`: a new key goes to the end, an old one keeps its place. */
  function SetItem(d: seq<(string, string)>, key: string, value: string): (r: seq<(string, string)>)
    ensures r != []
    ensures forall i :: 0 <= i < |r| ==> r[i] == (key, value) || r[i] in d
  {
    if d == [] then [(key, value)]
    else if d[0].0 == key then [(key, value)] + d[1..]
    else [d[0]] + SetItem(d[1..], key, value)
  }

  lemma {:induction false} SetItemSetsOne(d: seq<(string, string)>, key: string, value: string, x: string)
    ensures Lookup(SetItem(d, key, value), x) == if x == key then Some(value) else Lookup(d, x)
    ensures Keys(SetItem(d, key, value)) == if key in Keys(d) then Keys(d) else Keys(d) + [key]
  {
    if d != [] && d[0].0 != key {
      SetItemSetsOne(d[1..], key, value, x);
      assert ([d[0]] + SetItem(d[1..], key, value))[1..] == SetItem(d[1..], key, value);
    }
  }

  lemma {:induction false} SetItemKeepsDistinct(d: seq<(string, string)>, key: string, value: string)
    requires DistinctKeys(d)
    ensures DistinctKeys(SetItem(d, key, value))
  {
    if d != [] && d[0].0 != key {
      SetItemKeepsDistinct(d[1..], key, value);
      var rest := SetItem(d[1..], key, value);
      forall i | 0 <= i < |rest| ensures rest[i].0 != d[0].0 {
        if rest[i] != (key, value) {
          var j :| 0 <= j < |d[1..]| && d[1..][j] == rest[i];
          assert d[j + 1].0 != d[0].0;
        }
      }
    }
  }

  function Assigned(sets: seq<(string, string)>): seq<(string, string)> {
    if sets == [] then []
    else SetItem(Assigned(sets[..|sets| - 1]), sets[|sets| - 1].0, sets[|sets| - 1].1)
  }

  /** The value assigned last to the key, if it was assigned at all. */
  function LastAssigned(sets: seq<(string, string)>, key: string): Option<string> {
    if sets == [] then None
    else if sets[|sets| - 1].0 == key then Some(sets[|sets| - 1].1)
    else LastAssigned(sets[..|sets| - 1], key)
  }

  lemma {:induction false} AssignedHoldsLast(sets: seq<(string, string)>, key: string)
    ensures Lookup(Assigned(sets), key) == LastAssigned(sets, key)
  {
    if sets != [] {
      var init, last := sets[..|sets| - 1], sets[|sets| - 1];
      AssignedHoldsLast(init, key);
      SetItemSetsOne(Assigned(init), last.0, last.1, key);
    }
  }

  // ----- the builder --------------------------------------------------------------

  datatype Status = Accepted | InvalidKey | NegativeUnsigned

  datatype Built = Text(text: string) | NoFields

  class LineBuilder {
    const measurement: string
    var tags: seq<(string, string)>
    var fields: seq<(string, string)>
    var timestamp: Option<int>

    ghost predicate Valid()
      reads this
    {
      && ' ' !in measurement
      && (forall i :: 0 <= i < |tags| ==> ValidKey(tags[i].0))
      && ValidFields(fields)
      && DistinctKeys(tags) && DistinctKeys(fields)
    }

    function Current(): Line
      reads this
    {
      Line(measurement, tags, fields, timestamp)
    }

    constructor (measurement: string)
      requires ' ' !in measurement
      ensures Valid() && Current() == Line(measurement, [], [], None)
    {
      this.measurement := measurement;
      tags, fields, timestamp := [], [], None;
    }

    method Tag(key: string, value: string) returns (r: Status)
      requires Valid()
      modifies this`tags
      ensures Valid()
      ensures r == Accepted <==> key != "" && forall i :: 0 <= i < |key| ==> key[i] !in {' ', ',', '='}
      ensures r == Accepted || r == InvalidKey
      ensures tags == if r == Accepted then SetItem(old(tags), key, value) else old(tags)
      ensures r == Accepted ==> Lookup(tags, key) == Some(value)
    {
      if !ValidKey(key) { return InvalidKey; }
      SetItemKeepsDistinct(tags, key, value);
      SetItemSetsOne(tags, key, value, key);
      tags := SetItem(tags, key, value);
      r := Accepted;
    }

    method Field(key: string, value: FieldValue) returns (r: Status)
      requires Valid()
      modifies this`fields
      ensures Valid()
      ensures r != InvalidKey <==> key != "" && forall i :: 0 <= i < |key| ==> key[i] !in {' ', ',', '='}
      ensures r == NegativeUnsigned <==> ValidKey(key) && value.UInt? && value.u < 0
      ensures fields == if r == Accepted then SetItem(old(fields), key, Render(value)) else old(fields)
      ensures r == Accepted ==> Lookup(fields, key).Some? && IsTextOf(Lookup(fields, key).value, value)
      ensures r == Accepted && value.Bool? ==> Lookup(fields, key) == Some(if value.b then "t" else "f")
    {
      if !ValidKey(key) { return InvalidKey; }
      if value.UInt? && value.u < 0 { return NegativeUnsigned; }
      RenderReadsBack(value);
      RenderIsText(value);
      SetItemKeepsDistinct(fields, key, Render(value));
      SetItemSetsOne(fields, key, Render(value), key);
      fields := SetItem(fields, key, Render(value));
      r := Accepted;
    }

    method TimeNs(t: int)
      requires Valid()
      modifies this`timestamp
      ensures Valid() && timestamp == Some(t)
    {
      timestamp := Some(t);
    }

    /** The text reads back as the builder's contents unless a tag follows a
        measurement that ends in a backslash. */
    method Build() returns (r: Built)
      requires Valid()
      ensures r.NoFields? <==> fields == []
      ensures r.Text? ==> r.text == Print(Current())
      ensures r.Text? ==> (Read(r.text) == Some(Current()) <==> SeparatorStands(Current()))
    {
      if fields == [] { return NoFields; }
      ReadsBackExactly(Current());
      r := Text(Print(Current()));
    }
  }

  // ----- whole runs ---------------------------------------------------------------

  datatype Call = SetTag(key: string, value: string) | SetField(fkey: string, fvalue: FieldValue) | SetTime(t: int)

  function TagSets(calls: seq<Call>): seq<(string, string)> {
    if calls == [] then [] else
    var last := calls[|calls| - 1];
    TagSets(calls[..|calls| - 1]) + (if last.SetTag? && ValidKey(last.key) then [(last.key, last.value)] else [])
  }

  function FieldSets(calls: seq<Call>): seq<(string, string)> {
    if calls == [] then [] else
    var last := calls[|calls| - 1];
    FieldSets(calls[..|calls| - 1]) +
    (if last.SetField? && ValidKey(last.fkey) && !(last.fvalue.UInt? && last.fvalue.u < 0)
     then [(last.fkey, Render(last.fvalue))] else [])
  }

  function LastTime(calls: seq<Call>): Option<int> {
    if calls == [] then None
    else if calls[|calls| - 1].SetTime? then Some(calls[|calls| - 1].t)
    else LastTime(calls[..|calls| - 1])
  }

  /** The line that a sequence of calls asks for. */
  function Requested(measurement: string, calls: seq<Call>): Line {
    Line(measurement, Assigned(TagSets(calls)), Assigned(FieldSets(calls)), LastTime(calls))
  }

  function Applied(line: Line, call: Call): Line {
    match call
    case SetTag(key, value) =>
      if ValidKey(key) then line.(tags := SetItem(line.tags, key, value)) else line
    case SetField(key, value) =>
      if ValidKey(key) && !(value.UInt? && value.u < 0) then line.(fields := SetItem(line.fields, key, Render(value)))
      else line
    case SetTime(t) => line.(timestamp := Some(t))
  }

  lemma AssignedStep(sets: seq<(string, string)>, more: seq<(string, string)>)
    requires |more| <= 1
    ensures Assigned(sets + more) ==
            if more == [] then Assigned(sets) else SetItem(Assigned(sets), more[0].0, more[0].1)
  {
    if more == [] {
      assert sets + more == sets;
    } else {
      assert (sets + more)[..|sets|] == sets;
    }
  }

  lemma RequestedStep(measurement: string, calls: seq<Call>, n: nat)
    requires n < |calls|
    ensures Requested(measurement, calls[..n + 1]) == Applied(Requested(measurement, calls[..n]), calls[n])
  {
    var upto, call := calls[..n + 1], calls[n];
    assert upto[..n] == calls[..n];
    AssignedStep(TagSets(calls[..n]), if call.SetTag? && ValidKey(call.key) then [(call.key, call.value)] else []);
    AssignedStep(FieldSets(calls[..n]),
                 if call.SetField? && ValidKey(call.fkey) && !(call.fvalue.UInt? && call.fvalue.u < 0)
                 then [(call.fkey, Render(call.fvalue))] else []);
  }

  /** The value that the calls gave last to a tag, and to a field unless refused for its sign. */
  function LastTag(calls: seq<Call>, key: string): Option<string> {
    if calls == [] then None
    else if calls[|calls| - 1].SetTag? && calls[|calls| - 1].key == key then Some(calls[|calls| - 1].value)
    else LastTag(calls[..|calls| - 1], key)
  }

  function LastField(calls: seq<Call>, key: string): Option<FieldValue> {
    if calls == [] then None
    else
      var last := calls[|calls| - 1];
      if last.SetField? && last.fkey == key && !(last.fvalue.UInt? && last.fvalue.u < 0) then Some(last.fvalue)
      else LastField(calls[..|calls| - 1], key)
  }

  /** The line has what the calls say for the key, which is refused for its characters alone. */
  ghost predicate AsAsked(line: Line, calls: seq<Call>, key: string) {
    var good := key != "" && forall i :: 0 <= i < |key| ==> key[i] !in {' ', ',', '='};
    && Lookup(line.tags, key) == (if good then LastTag(calls, key) else None)
    && (good && LastField(calls, key).Some? ==>
          Lookup(line.fields, key).Some? && IsTextOf(Lookup(line.fields, key).value, LastField(calls, key).value))
    && (!good || LastField(calls, key).None? ==> Lookup(line.fields, key).None?)
  }

  lemma TagAsked(line: Line, calls: seq<Call>, call: Call, key: string)
    requires AsAsked(line, calls, key) && call.SetTag?
    ensures AsAsked(Applied(line, call), calls + [call], key)
  {
    assert (calls + [call])[..|calls|] == calls;
    SetItemSetsOne(line.tags, call.key, call.value, key);
  }

  lemma FieldAsked(line: Line, calls: seq<Call>, call: Call, key: string)
    requires AsAsked(line, calls, key) && call.SetField?
    ensures AsAsked(Applied(line, call), calls + [call], key)
  {
    assert (calls + [call])[..|calls|] == calls;
    SetItemSetsOne(line.fields, call.fkey, Render(call.fvalue), key);
    RenderIsText(call.fvalue);
  }

  lemma {:induction false} RequestedIsAsked(measurement: string, calls: seq<Call>, key: string)
    ensures AsAsked(Requested(measurement, calls), calls, key)
  {
    if calls != [] {
      var n := |calls| - 1;
      var init, call := calls[..n], calls[n];
      RequestedIsAsked(measurement, init, key);
      RequestedStep(measurement, calls, n);
      assert calls[..n + 1] == calls && init + [call] == calls;
      match call
      case SetTag(_, _) => TagAsked(Requested(measurement, init), init, call, key);
      case SetField(_, _) => FieldAsked(Requested(measurement, init), init, call, key);
      case SetTime(_) =>
    }
  }

  lemma NothingAssigned(sets: seq<(string, string)>)
    ensures Assigned(sets) == [] <==> sets == []
  {}

  method Apply(b: LineBuilder, call: Call)
    requires b.Valid()
    modifies b
    ensures b.Valid() && b.Current() == Applied(old(b.Current()), call)
  {
    match call {
      case SetTag(key, value) => var _ := b.Tag(key, value);
      case SetField(key, value) => var _ := b.Field(key, value);
      case SetTime(t) => b.TimeNs(t);
    }
  }

  /** Every run of the builder, bad calls included: `None` when the measurement is
      rejected, otherwise the text of the line the calls asked for, which reads back exactly
      if the comma in front of its tags stands. */
  method BuildLine(measurement: string, calls: seq<Call>) returns (r: Option<Built>)
    ensures r.None? <==> ' ' in measurement
    ensures r == Some(NoFields) <==> ' ' !in measurement && FieldSets(calls) == []
    ensures FieldSets(calls) != [] ==> Requested(measurement, calls).fields != []
    ensures r.Some? && r.value.Text? ==>
              Holds(Requested(measurement, calls), true) && r.value.text == Print(Requested(measurement, calls))
    ensures forall key :: AsAsked(Requested(measurement, calls), calls, key)
    ensures r.Some? && r.value.Text? ==>
              (Read(r.value.text) == Some(Requested(measurement, calls)) <==>
               TagSets(calls) == [] || !EndsInBackslash(measurement))
  {
    forall key ensures AsAsked(Requested(measurement, calls), calls, key) {
      RequestedIsAsked(measurement, calls, key);
    }
    if ' ' in measurement { return None; }
    var b := new LineBuilder(measurement);
    for n := 0 to |calls|
      invariant b.Valid() && fresh(b) && b.measurement == measurement
      invariant b.Current() == Requested(measurement, calls[..n])
    {
      RequestedStep(measurement, calls, n);
      Apply(b, calls[n]);
    }
    assert calls[..|calls|] == calls;
    NothingAssigned(TagSets(calls));
    NothingAssigned(FieldSets(calls));
    var built := b.Build();
    r := Some(built);
  }

  // ----- ambiguous lines ----------------------------------------------------------

  /** The line that takes the first tag into the measurement. */
  function Absorbed(line: Line): Line
    requires line.tags != [] && line.measurement != []
  {
    var m := line.measurement[..|line.measurement| - 1] + "," + line.tags[0].0 + "="
             + Escape(line.tags[0].1, {'\\', '='});
    Line(m, line.tags[1..], line.fields, line.timestamp)
  }

  /** One character, escaped in two passes. */
  lemma EscapeOneInTwo(c: char, x: string)
    requires c != ' ' && x == if c in {'\\', '='} then ['\\', c] else [c]
    ensures Escape(x, {',', ' '}) == if c in {'\\', ',', '=', ' '} then ['\\', c] else [c]
    ensures ' ' !in x
  {
    EscapeOfShort(x, {',', ' '});
  }

  lemma {:induction false} EscapeInTwo(s: string)
    requires ' ' !in s
    ensures Escape(Escape(s, {'\\', '='}), {',', ' '}) == Escape(s, {'\\', ',', '=', ' '})
    ensures ' ' !in Escape(s, {'\\', '='})
  {
    if s != [] {
      var c, rest := s[0], Escape(s[1..], {'\\', '='});
      assert c in s && ' ' !in s[1..] by { assert forall d :: d in s[1..] ==> d in s; }
      EscapeInTwo(s[1..]);
      var x := if c in {'\\', '='} then ['\\', c] else [c];
      EscapeFirst(s, {'\\', '='});
      EscapeFirst(s, {'\\', ',', '=', ' '});
      EscapeConcat(x, rest, {',', ' '});
      EscapeOneInTwo(c, x);
    }
  }

  lemma EscapeOfShort(x: string, special: set<char>)
    requires 1 <= |x| <= 2
    ensures Escape(x, special) ==
            (if x[0] in special then ['\\', x[0]] else [x[0]]) +
            (if |x| == 1 then [] else if x[1] in special then ['\\', x[1]] else [x[1]])
  {
    if |x| == 1 {
      assert x[1..] == [];
    } else {
      assert x[1..] == [x[1]] && x[1..][1..] == [];
    }
  }

  lemma AbsorbedIsValid(line: Line)
    requires ValidLine(line) && !SeparatorStands(line) && ' ' !in line.tags[0].1
    ensures ValidLine(Absorbed(line)) && Absorbed(line) != line
  {
    var init := line.measurement[..|line.measurement| - 1];
    EscapeInTwo(line.tags[0].1);
    assert ' ' !in init by { assert forall c :: c in init ==> c in line.measurement; }
    assert |Absorbed(line).tags| < |line.tags|;
  }

  /** One family of lines that their texts do not determine: with tags, a measurement that
      ends in a backslash and no space in the first tag value, the first tag can be taken
      into the measurement. */
  lemma TrailingBackslashCollides(line: Line, unique: bool)
    requires Holds(line, unique) && !SeparatorStands(line) && ' ' !in line.tags[0].1
    ensures Holds(Absorbed(line), unique) && Absorbed(line) != line
    ensures Print(Absorbed(line)) == Print(line)
    ensures !Determined(line, unique) && !Determined(Absorbed(line), unique)
  {
    var (key, value) := line.tags[0];
    var init := line.measurement[..|line.measurement| - 1];
    var w := Escape(value, {'\\', '='});
    var more := if |line.tags| == 1 then "" else "," + JoinTags(line.tags[1..]);
    var tail := PrintTail(line.fields, line.timestamp);
    assert line.measurement == init + ['\\'];
    EscapeInTwo(value);
    AbsorbedMeasurement(init, key, w);
    AbsorbedIsValid(line);

    EscapeMeasurementIsOnePass(line.measurement);
    EscapeConcat(init, ['\\'], {',', ' '});
    EscapeOfShort(['\\'], {',', ' '});
    EscapeMeasurementIsOnePass(Absorbed(line).measurement);
    EscapeValueIsOnePass(value);
    var e, v := Escape(init, {',', ' '}), EscapeValue(value);
    assert Escape(line.measurement, {',', ' '}) == e + ['\\'];
    assert Escape(Absorbed(line).measurement, {',', ' '}) == e + "\\," + key + "=" + v;
    Reassociate(e, key, v, more, tail);
    assert Print(line) == e + ['\\'] + ("," + (Pair(key, v) + more)) + tail;
    assert Print(Absorbed(line)) == e + "\\," + key + "=" + v + more + tail;
  }

  /** A line may read back although its text does not determine it. */
  lemma ReadsBackYetCollides(line: Line, unique: bool)
    requires Holds(line, unique) && !SeparatorStands(line) && |line.tags| == 1 && ' ' !in line.tags[0].1
    ensures var a := Absorbed(line); ValidLine(a) && Read(Print(a)) == Some(a) && !Determined(a, unique)
  {
    TrailingBackslashCollides(line, unique);
    ReadsBackExactly(Absorbed(line));
  }

  lemma Reassociate(e: string, key: string, v: string, more: string, tail: string)
    ensures e + ['\\'] + ("," + (Pair(key, v) + more)) + tail == e + "\\," + key + "=" + v + more + tail
  {
    assert "\\," == ['\\'] + ",";
    assert e + ['\\'] + ("," + (Pair(key, v) + more)) == e + "\\," + key + "=" + v + more;
  }

  lemma EscapeComma()
    ensures Escape(",", {',', ' '}) == "\\,"
  {
    EscapeOfShort(",", {',', ' '});
  }

  lemma EscapeEquals()
    ensures Escape("=", {',', ' '}) == "="
  {
    EscapeOfShort("=", {',', ' '});
  }

  lemma AbsorbedMeasurement(init: string, key: string, w: string)
    requires ValidKey(key)
    ensures Escape(init + "," + key + "=" + w, {',', ' '}) ==
            Escape(init, {',', ' '}) + "\\," + key + "=" + Escape(w, {',', ' '})
  {
    var a := init + ",";
    var b := a + key;
    var c := b + "=";
    EscapeConcat(init, ",", {',', ' '});
    EscapeComma();
    EscapeConcat(a, key, {',', ' '});
    EscapePlain(key, {',', ' '});
    EscapeConcat(b, "=", {',', ' '});
    EscapeEquals();
    EscapeConcat(c, w, {',', ' '});
  }
}
