/**
 The tag values of the load generator: every writer cycles through its own range of ids,
 and the id is printed at the end of the tag's value.
 */
module LoadGenerator {
  import opened Basics
  import opened LineProtocol

  datatype TagSpec = TagSpec(key: string, copies: Option<nat>, appendCopyId: bool, value: Option<string>,
                             appendWriterId: bool, cardinality: Option<nat>)

  function DivCeil(a: nat, b: nat): nat
    requires b > 0
  {
    if a % b == 0 then a / b else a / b + 1
  }

  /** The first and the last id of a writer; writers count from one. */
  function CardinalityMinMax(cardinality: Option<nat>, writer: nat, writers: nat): Option<(nat, nat)>
    requires 1 <= writer <= writers
  {
    if cardinality.None? then None
    else
      var increment := DivCeil(cardinality.value, writers);
      Product(writer, increment);
      var min := writer * increment - increment + 1;
      Some((min, min + increment - 1))
  }

  lemma Product(writer: nat, increment: nat)
    requires writer >= 1
    ensures writer * increment - increment == (writer - 1) * increment >= 0
  {}

  function CardinalityOf(t: TagSpec): nat {
    if t.cardinality.None? then 1 else t.cardinality.value
  }

  /** The largest cardinality of any tag, one for a measurement without tags. */
  method MaxCardinality(tags: seq<TagSpec>) returns (max: nat)
    ensures forall j :: 0 <= j < |tags| ==> CardinalityOf(tags[j]) <= max
    ensures if tags == [] then max == 1 else exists j :: 0 <= j < |tags| && CardinalityOf(tags[j]) == max
  {
    if tags == [] {
      return 1;
    }
    max := CardinalityOf(tags[0]);
    for i := 1 to |tags|
      invariant forall j :: 0 <= j < i ==> CardinalityOf(tags[j]) <= max
      invariant exists j :: 0 <= j < i && CardinalityOf(tags[j]) == max
    {
      if CardinalityOf(tags[i]) > max {
        max := CardinalityOf(tags[i]);
      }
    }
  }

  lemma DivCeilBounds(c: nat, writers: nat)
    requires writers > 0
    ensures c <= writers * DivCeil(c, writers) < c + writers
    ensures c > 0 ==> DivCeil(c, writers) > 0
  {
    assert c == writers * (c / writers) + c % writers;
  }

  lemma InStretch(x: nat, d: nat, q: nat)
    requires d > 0
    ensures q * d <= x < q * d + d <==> x / d == q
  {
    assert x == x / d * d + x % d;
    if x / d < q {
      assert (x / d + 1) * d <= q * d;
    } else if x / d > q {
      assert (q + 1) * d <= x / d * d;
    }
  }

  lemma Ordered(p: nat, q: nat, d: nat)
    ensures p * d < q * d ==> p < q
  {
    if p >= q {
      assert p * d >= q * d;
    }
  }

  /** Every id up to the last writer's last one belongs to exactly one writer; the ranges
      cover the cardinality and go past it by less than one id for each writer. */
  lemma RangesPartition(c: nat, writers: nat, writer: nat, id: nat)
    requires c >= 1 && 1 <= writer <= writers && id >= 1
    ensures var inc := DivCeil(c, writers);
            && inc > 0
            && (var r := CardinalityMinMax(Some(c), writer, writers).value;
                && r.1 == r.0 + inc - 1
                && (r.0 <= id <= r.1 <==> writer == (id - 1) / inc + 1))
            && (id <= c ==> 1 <= (id - 1) / inc + 1 <= writers)
            && CardinalityMinMax(Some(c), 1, writers).value.0 == 1
            && c <= CardinalityMinMax(Some(c), writers, writers).value.1 < c + writers
  {
    var inc := DivCeil(c, writers);
    DivCeilBounds(c, writers);
    Product(writer, inc);
    Product(writers, inc);
    InStretch(id - 1, inc, writer - 1);
    if id <= c {
      var q := (id - 1) / inc;
      InStretch(id - 1, inc, q);
      Ordered(q, writers, inc);
    }
  }

  /** The number of ids of a writer's range. */
  function Size(c: nat, writers: nat): nat
    requires writers > 0
  {
    DivCeil(c, writers)
  }

  /** The id in a tag's k-th line: the range is walked through from its start, again and
      again. */
  function IdAt(c: nat, writer: nat, writers: nat, k: nat): nat
    requires c >= 1 && 1 <= writer <= writers
  {
    DivCeilBounds(c, writers);
    CardinalityMinMax(Some(c), writer, writers).value.0 + k % Size(c, writers)
  }

  /** The key and the parts of the value that stay the same in all lines of a writer. */
  function Prefix(t: TagSpec, copy: nat, writer: nat): string {
    var head := "," + t.key + (if copy > 1 then "_" + Digits(copy) else "") + "=";
    var value := if t.value.Some? then head + t.value.value else head;
    var byWriter := if t.appendWriterId then value + Digits(writer) else value;
    if t.appendCopyId then byWriter + Digits(copy) else byWriter
  }

  /** What a tag prints in its k-th line. */
  function TextAt(t: TagSpec, copy: nat, writer: nat, writers: nat, k: nat): string
    requires 1 <= writer <= writers
  {
    if t.cardinality.Some? && t.cardinality.value > 0
    then Prefix(t, copy, writer) + Digits(IdAt(t.cardinality.value, writer, writers, k))
    else Prefix(t, copy, writer)
  }

  /** A number that is printed only if wanted. */
  ghost predicate PrintsIf(text: string, wanted: bool, n: nat) {
    if wanted then IsNumeral(text, n) else text == ""
  }

  /** What is printed for a tag, read from left to right: a comma, the name, which from the
      second copy on is the key with the number of the copy, the equals sign, and the value
      followed by the ids that are wanted. */
  lemma TextIsMadeOf(t: TagSpec, copy: nat, writer: nat, writers: nat, k: nat)
    returns (number: string, byWriter: string, byCopy: string, id: string)
    requires 1 <= writer <= writers
    ensures var name := if copy > 1 then t.key + "_" + number else t.key;
            var value := (if t.value.Some? then t.value.value else "") + byWriter + byCopy + id;
            TextAt(t, copy, writer, writers, k) == "," + (name + ("=" + value))
    ensures IsNumeral(number, copy) && PrintsIf(byWriter, t.appendWriterId, writer) && PrintsIf(byCopy, t.appendCopyId, copy)
    ensures var some := t.cardinality.Some? && t.cardinality.value > 0;
            PrintsIf(id, some, if some then IdAt(t.cardinality.value, writer, writers, k) else 0)
  {
    var some := t.cardinality.Some? && t.cardinality.value > 0;
    number := Digits(copy);
    byWriter := if t.appendWriterId then Digits(writer) else "";
    byCopy := if t.appendCopyId then Digits(copy) else "";
    id := if some then Digits(IdAt(t.cardinality.value, writer, writers, k)) else "";
    DigitsByPlace(copy);
    DigitsByPlace(writer);
    if some { DigitsByPlace(IdAt(t.cardinality.value, writer, writers, k)); }
    var name := if copy > 1 then t.key + "_" + number else t.key;
    var v := if t.value.Some? then t.value.value else "";
    PrefixInParts(t, copy, writer, name, v, byWriter, byCopy);
    Regroup(name, v, byWriter, byCopy, id);
  }

  lemma PrefixInParts(t: TagSpec, copy: nat, writer: nat, name: string, v: string, byWriter: string, byCopy: string)
    requires name == if copy > 1 then t.key + "_" + Digits(copy) else t.key
    requires v == if t.value.Some? then t.value.value else ""
    requires byWriter == if t.appendWriterId then Digits(writer) else ""
    requires byCopy == if t.appendCopyId then Digits(copy) else ""
    ensures Prefix(t, copy, writer) == "," + name + "=" + v + byWriter + byCopy
  {
    var head := "," + t.key + (if copy > 1 then "_" + Digits(copy) else "") + "=";
    assert head == "," + name + "=" by {
      if copy > 1 { assert "," + t.key + ("_" + Digits(copy)) == "," + (t.key + "_" + Digits(copy)); }
      else { assert "," + t.key + "" == "," + t.key; }
    }
    assert forall x: string :: x + "" == x;
  }

  lemma Regroup(name: string, v: string, byWriter: string, byCopy: string, id: string)
    ensures "," + name + "=" + v + byWriter + byCopy + id == "," + (name + ("=" + (v + byWriter + byCopy + id)))
    ensures "," + name + "=" + v + byWriter + byCopy + "" == "," + name + "=" + v + byWriter + byCopy
  {
    var value := v + byWriter + byCopy + id;
    assert "," + name + "=" + v + byWriter + byCopy + id == "," + name + "=" + value;
  }

  /** The name reads back up to the first equals sign, for a key without one. */
  lemma NameReadsBack(t: TagSpec, copy: nat, writer: nat, writers: nat, k: nat) returns (number: string)
    requires 1 <= writer <= writers && '=' !in t.key
    ensures IsNumeral(number, copy)
    ensures var text := TextAt(t, copy, writer, writers, k);
            && text != [] && text[0] == ','
            && ReadUntil(text[1..], {'='}).0 == if copy > 1 then t.key + "_" + number else t.key
  {
    var byWriter, byCopy, id;
    number, byWriter, byCopy, id := TextIsMadeOf(t, copy, writer, writers, k);
    var name := if copy > 1 then t.key + "_" + number else t.key;
    var value := (if t.value.Some? then t.value.value else "") + byWriter + byCopy + id;
    assert ("," + (name + ("=" + value)))[1..] == name + ("=" + value);
    assert '=' !in name;
    ReadUntilBack(name, {'='}, "=" + value);
  }

  class Tag {
    const spec: TagSpec
    const copyId: nat
    const writers: nat
    const writer: nat
    const min: nat
    const max: nat
    var current: nat

    ghost predicate Made()
    {
      && 1 <= writer <= writers
      && (min, max) == (if spec.cardinality.None? then (0, 0) else CardinalityMinMax(spec.cardinality, writer, writers).value)
    }

    /** The state after `k` lines: one past the id of the last of them. */
    ghost predicate After(k: nat)
      reads this
    {
      && Made()
      && (spec.cardinality.Some? && spec.cardinality.value > 0 ==>
            current == if k == 0 then min else IdAt(spec.cardinality.value, writer, writers, k - 1) + 1)
    }

    constructor (t: TagSpec, copy: nat, id: nat, count: nat)
      requires 1 <= id <= count
      ensures spec == t && copyId == copy && writer == id && writers == count && After(0)
    {
      var range := if t.cardinality.None? then (0, 0) else CardinalityMinMax(t.cardinality, id, count).value;
      spec, copyId, writers, writer := t, copy, count, id;
      min, max, current := range.0, range.1, range.0;
    }

    method WritePrefix() returns (text: string)
      ensures text == Prefix(spec, copyId, writer)
    {
      text := "," + spec.key + (if copyId > 1 then "_" + Digits(copyId) else "") + "=";
      if spec.value.Some? {
        text := text + spec.value.value;
      }
      if spec.appendWriterId {
        text := text + Digits(writer);
      }
      if spec.appendCopyId {
        text := text + Digits(copyId);
      }
    }

    method WriteTo(ghost k: nat) returns (text: string)
      requires After(k)
      modifies this
      ensures After(k + 1)
      ensures text == TextAt(spec, copyId, writer, writers, k)
    {
      text := WritePrefix();
      RangeIsUsed(spec.cardinality, writer, writers);
      if min != 0 && max != 0 {
        NextId(spec.cardinality.value, writer, writers, k);
        if current > max {
          current := min;
        }
        text := text + Digits(current);
        current := current + 1;
      }
    }
  }

  /** The test the printing makes: a range is used exactly for a positive cardinality. */
  lemma RangeIsUsed(cardinality: Option<nat>, writer: nat, writers: nat)
    requires 1 <= writer <= writers
    ensures var r := if cardinality.None? then (0, 0) else CardinalityMinMax(cardinality, writer, writers).value;
            r.0 != 0 && r.1 != 0 <==> cardinality.Some? && cardinality.value > 0
  {
    if cardinality.Some? {
      DivCeilBounds(cardinality.value, writers);
      Product(writer, DivCeil(cardinality.value, writers));
      if cardinality.value == 0 {
        assert DivCeil(0, writers) == 0;
      }
    }
  }

  /** Starting again after the last id gives the next id of the cycle. */
  lemma NextId(c: nat, writer: nat, writers: nat, k: nat)
    requires c >= 1 && 1 <= writer <= writers
    ensures var r := CardinalityMinMax(Some(c), writer, writers).value;
            var current := if k == 0 then r.0 else IdAt(c, writer, writers, k - 1) + 1;
            (if current > r.1 then r.0 else current) == IdAt(c, writer, writers, k)
  {
    DivCeilBounds(c, writers);
    if k > 0 {
      CycleStep(k - 1, Size(c, writers));
    }
  }

  lemma CycleStep(k: nat, d: nat)
    requires d > 0
    ensures (k + 1) % d == if k % d + 1 == d then 0 else k % d + 1
  {
    assert k == k / d * d + k % d;
    if k % d + 1 == d {
      assert k + 1 == (k / d + 1) * d;
      InStretch(k + 1, d, k / d + 1);
    } else {
      InStretch(k + 1, d, k / d);
    }
  }

  // ---------------------------------------------------------------------------------------
  // Whole samples
  // ---------------------------------------------------------------------------------------

  /** The tags of a measurement, with the number of the copy. */
  function Copies(specs: seq<TagSpec>): seq<(TagSpec, nat)> {
    if specs == [] then []
    else
      var t := specs[|specs| - 1];
      Copies(specs[..|specs| - 1]) + CopiesOf(t, if t.copies.None? then 1 else t.copies.value)
  }

  function CopiesOf(t: TagSpec, n: nat): seq<(TagSpec, nat)> {
    if n == 0 then [] else CopiesOf(t, n - 1) + [(t, n)]
  }

  /** How many copies the first `i` tags have together, one each unless they say otherwise. */
  function CopiesBefore(specs: seq<TagSpec>, i: nat): nat
    requires i <= |specs|
  {
    if i == 0 then 0
    else CopiesBefore(specs, i - 1) + (if specs[i - 1].copies.None? then 1 else specs[i - 1].copies.value)
  }

  lemma {:induction false} CopiesOfAt(t: TagSpec, n: nat)
    ensures |CopiesOf(t, n)| == n && forall c :: 1 <= c <= n ==> CopiesOf(t, n)[c - 1] == (t, c)
  {
    if n > 0 { CopiesOfAt(t, n - 1); }
  }

  lemma {:induction false} CopiesAreCounted(specs: seq<TagSpec>, n: nat)
    requires n <= |specs|
    ensures |Copies(specs[..n])| == CopiesBefore(specs, n)
  {
    if n > 0 {
      assert specs[..n][..n - 1] == specs[..n - 1];
      CopiesAreCounted(specs, n - 1);
      CopiesOfAt(specs[n - 1], if specs[n - 1].copies.None? then 1 else specs[n - 1].copies.value);
    }
  }

  /** The copies of each tag are numbered from one and follow those of the tags before it. */
  lemma {:induction false} CopiesAreInOrder(specs: seq<TagSpec>, n: nat, i: nat, c: nat)
    requires i < n <= |specs| && 1 <= c <= if specs[i].copies.None? then 1 else specs[i].copies.value
    ensures var at := CopiesBefore(specs, i) + c - 1;
            at < |Copies(specs[..n])| == CopiesBefore(specs, n) && Copies(specs[..n])[at] == (specs[i], c)
  {
    CopiesAreCounted(specs, n);
    CopiesAreCounted(specs, n - 1);
    assert specs[..n][..n - 1] == specs[..n - 1];
    CopiesOfAt(specs[n - 1], if specs[n - 1].copies.None? then 1 else specs[n - 1].copies.value);
    if i < n - 1 {
      CopiesAreInOrder(specs, n - 1, i, c);
    }
  }

  /** Fresh tags, no two of them the same, as many as the list names and in its order. */
  ghost predicate Stand(tags: seq<Tag>, list: seq<(TagSpec, nat)>, writer: nat, writers: nat)
  {
    && |tags| == |list|
    && (forall j :: 0 <= j < |tags| ==>
          tags[j].spec == list[j].0 && tags[j].copyId == list[j].1 && tags[j].writer == writer && tags[j].writers == writers)
    && (forall i, j :: 0 <= i < j < |tags| ==> tags[i] != tags[j])
  }

  ghost predicate AllAfter(tags: seq<Tag>, k: nat)
    reads tags
  {
    forall j :: 0 <= j < |tags| ==> tags[j].After(k)
  }

  lemma StandMore(tags: seq<Tag>, list: seq<(TagSpec, nat)>, writer: nat, writers: nat, tag: Tag)
    requires Stand(tags, list, writer, writers) && AllAfter(tags, 0) && tag.After(0) && tag !in tags
    requires tag.writer == writer && tag.writers == writers
    ensures Stand(tags + [tag], list + [(tag.spec, tag.copyId)], writer, writers) && AllAfter(tags + [tag], 0)
  {}

  method CreateTags(specs: seq<TagSpec>, writer: nat, writers: nat) returns (tags: seq<Tag>)
    requires 1 <= writer <= writers
    ensures Stand(tags, Copies(specs), writer, writers) && AllAfter(tags, 0)
    ensures forall j :: 0 <= j < |tags| ==> fresh(tags[j])
  {
    tags := [];
    for i := 0 to |specs|
      invariant Stand(tags, Copies(specs[..i]), writer, writers) && AllAfter(tags, 0)
      invariant forall j :: 0 <= j < |tags| ==> fresh(tags[j])
    {
      var t := specs[i];
      assert specs[..i + 1][..i] == specs[..i];
      var n := if t.copies.None? then 1 else t.copies.value;
      ghost var before := Copies(specs[..i]);
      for copy := 0 to n
        invariant Stand(tags, before + CopiesOf(t, copy), writer, writers) && AllAfter(tags, 0)
        invariant forall j :: 0 <= j < |tags| ==> fresh(tags[j])
      {
        var tag := new Tag(t, copy + 1, writer, writers);
        StandMore(tags, before + CopiesOf(t, copy), writer, writers, tag);
        assert before + CopiesOf(t, copy + 1) == before + CopiesOf(t, copy) + [(t, copy + 1)];
        tags := tags + [tag];
      }
    }
    assert specs[..|specs|] == specs;
  }

  /** What the tags print in the k-th line. */
  function LineAt(list: seq<(TagSpec, nat)>, writer: nat, writers: nat, k: nat): seq<string>
    requires 1 <= writer <= writers
  {
    seq(|list|, j requires 0 <= j < |list| => TextAt(list[j].0, list[j].1, writer, writers, k))
  }

  method WriteLine(tags: seq<Tag>, ghost list: seq<(TagSpec, nat)>, ghost writer: nat, ghost writers: nat, ghost k: nat)
    returns (line: seq<string>)
    requires 1 <= writer <= writers && Stand(tags, list, writer, writers) && AllAfter(tags, k)
    modifies tags
    ensures AllAfter(tags, k + 1)
    ensures line == LineAt(list, writer, writers, k)
  {
    line := [];
    for i := 0 to |tags|
      invariant line == LineAt(list, writer, writers, k)[..i]
      invariant forall j :: 0 <= j < i ==> tags[j].After(k + 1)
      invariant forall j :: i <= j < |tags| ==> tags[j].After(k)
    {
      var text := tags[i].WriteTo(k);
      assert LineAt(list, writer, writers, k)[..i + 1] == LineAt(list, writer, writers, k)[..i] + [text];
      line := line + [text];
    }
  }

  /** Line after line, every tag prints the text of its place in the cycle. */
  ghost predicate InTurn(out: seq<seq<string>>, list: seq<(TagSpec, nat)>, writer: nat, writers: nat)
    requires 1 <= writer <= writers
  {
    forall k :: 0 <= k < |out| ==> out[k] == LineAt(list, writer, writers, k)
  }

  method WriteSample(tags: seq<Tag>, lines: nat, sofar: seq<seq<string>>, ghost list: seq<(TagSpec, nat)>,
                     ghost writer: nat, ghost writers: nat)
    returns (out: seq<seq<string>>)
    requires 1 <= writer <= writers && Stand(tags, list, writer, writers) && AllAfter(tags, |sofar|)
    requires InTurn(sofar, list, writer, writers)
    modifies tags
    ensures |out| == |sofar| + lines && AllAfter(tags, |out|) && sofar <= out
    ensures InTurn(out, list, writer, writers)
  {
    out := sofar;
    for i := 0 to lines
      invariant |out| == |sofar| + i && AllAfter(tags, |out|) && sofar <= out
      invariant InTurn(out, list, writer, writers)
    {
      var line := WriteLine(tags, list, writer, writers, |out|);
      out := out + [line];
    }
  }

  /** As many lines as asked for, or as many ids as the writer has of the tag with the
      largest cardinality. */
  ghost predicate IsLinesPerSample(n: nat, specs: seq<TagSpec>, lines: Option<nat>, writers: nat)
    requires writers > 0
  {
    if lines.Some? then n == lines.value
    else if specs == [] then n == 1
    else exists j :: 0 <= j < |specs| && IsLargest(specs, j) && n == DivCeil(CardinalityOf(specs[j]), writers)
  }

  method LinesPerSample(specs: seq<TagSpec>, lines: Option<nat>, writers: nat) returns (n: nat)
    requires writers > 0
    ensures IsLinesPerSample(n, specs, lines, writers)
  {
    var max := MaxCardinality(specs);
    n := if lines.Some? then lines.value else DivCeil(max, writers);
  }

  /** Any number of samples of a measurement: every tag keeps its place in its cycle from
      sample to sample, whatever the other tags do. */
  method WriteSamples(specs: seq<TagSpec>, lines: Option<nat>, writer: nat, writers: nat, samples: nat)
    returns (out: seq<seq<string>>, perSample: nat)
    requires 1 <= writer <= writers
    ensures |out| == samples * perSample && InTurn(out, Copies(specs), writer, writers)
    ensures IsLinesPerSample(perSample, specs, lines, writers)
  {
    perSample := LinesPerSample(specs, lines, writers);
    ghost var list := Copies(specs);
    var tags := CreateTags(specs, writer, writers);
    out := [];
    for s := 0 to samples
      invariant forall j :: 0 <= j < |tags| ==> fresh(tags[j])
      invariant |out| == s * perSample && AllAfter(tags, |out|)
      invariant InTurn(out, list, writer, writers)
    {
      assert (s + 1) * perSample == s * perSample + perSample;
      out := WriteSample(tags, perSample, out, list, writer, writers);
    }
  }

  ghost predicate IsLargest(specs: seq<TagSpec>, j: nat) {
    j < |specs| && forall i :: 0 <= i < |specs| ==> CardinalityOf(specs[i]) <= CardinalityOf(specs[j])
  }

  /** With as many lines as the largest range has ids, every sample prints every id of that
      range in exactly one of its lines. */
  lemma SampleCoversTheRange(c: nat, writer: nat, writers: nat, sample: nat, id: nat, line: nat)
    requires c >= 1 && 1 <= writer <= writers
    requires var r := CardinalityMinMax(Some(c), writer, writers).value; r.0 <= id <= r.1
    requires sample * DivCeil(c, writers) <= line < sample * DivCeil(c, writers) + DivCeil(c, writers)
    ensures var r := CardinalityMinMax(Some(c), writer, writers).value;
            IdAt(c, writer, writers, line) == id <==> line == sample * DivCeil(c, writers) + (id - r.0)
  {
    DivCeilBounds(c, writers);
    PlaceInCycle(line, DivCeil(c, writers), sample);
  }

  lemma PlaceInCycle(x: nat, d: nat, q: nat)
    requires d > 0 && q * d <= x < q * d + d
    ensures x % d == x - q * d
  {
    InStretch(x, d, q);
    assert x == x / d * d + x % d;
  }

  lemma {:induction false} LongerNumbers(m: nat, n: nat)
    requires m <= n
    ensures |Digits(m)| <= |Digits(n)|
  {
    if n >= 10 && m >= 10 {
      LongerNumbers(m / 10, n / 10);
    }
  }

  lemma SameDigits(m: nat, n: nat)
    requires Digits(m) == Digits(n)
    ensures m == n
  {
    ReadDigitsBack(m);
    ReadDigitsBack(n);
  }

  lemma SplitTexts(p: string, m: string, q: string, x: string, n: string, y: string)
    requires |m| <= |n| && |x| <= |y| && p + m + q + x == p + n + q + y
    ensures m == n
  {
    var a := p + m + q + x;
    assert |a| == |p| + |m| + |q| + |x|;
    assert |p + n + q + y| == |p| + |n| + |q| + |y|;
    assert m == a[|p|..|p| + |m|];
    assert n == (p + n + q + y)[|p|..|p| + |n|];
  }

  lemma SplitNumbers(p: string, m: nat, q: string, x: nat, n: nat, y: nat)
    requires m <= n && x <= y
    ensures p + Digits(m) + q + Digits(x) == p + Digits(n) + q + Digits(y) ==> m == n
  {
    var a, b, c, d := Digits(m), Digits(x), Digits(n), Digits(y);
    LongerNumbers(m, n);
    LongerNumbers(x, y);
    if p + a + q + b == p + c + q + d {
      SplitTexts(p, a, q, b, c, d);
      SameDigits(m, n);
    }
  }

  lemma StepUp(p: nat, q: nat, d: nat)
    requires p <= q
    ensures p * d <= q * d
  {}

  /** Every printed id lies in the writer's range. */
  lemma IdInRange(c: nat, writer: nat, writers: nat, k: nat)
    requires c >= 1 && 1 <= writer <= writers
    ensures var d := DivCeil(c, writers); (writer - 1) * d < IdAt(c, writer, writers, k) <= writer * d
  {
    DivCeilBounds(c, writers);
    Product(writer, DivCeil(c, writers));
  }

  lemma LaterWriterLaterIds(c: nat, first: nat, second: nat, writers: nat, k: nat, l: nat)
    requires c >= 1 && 1 <= first < second <= writers
    ensures IdAt(c, first, writers, k) < IdAt(c, second, writers, l)
  {
    IdInRange(c, first, writers, k);
    IdInRange(c, second, writers, l);
    StepUp(first, second - 1, DivCeil(c, writers));
  }

  /** Two writers never print the same value for a tag, although the writer, the copy and
      the id are printed without anything between them. */
  lemma WritersNeverCollide(t: TagSpec, copy: nat, first: nat, second: nat, writers: nat, k: nat, l: nat)
    requires 1 <= first < second <= writers
    requires t.cardinality.Some? && t.cardinality.value > 0
    ensures TextAt(t, copy, first, writers, k) != TextAt(t, copy, second, writers, l)
  {
    var x, y := IdAt(t.cardinality.value, first, writers, k), IdAt(t.cardinality.value, second, writers, l);
    LaterWriterLaterIds(t.cardinality.value, first, second, writers, k, l);
    var a, b := TextAt(t, copy, first, writers, k), TextAt(t, copy, second, writers, l);
    if t.appendWriterId {
      var p := Prefix(t.(appendWriterId := false, appendCopyId := false), copy, first);
      var q := if t.appendCopyId then Digits(copy) else "";
      assert a == p + Digits(first) + q + Digits(x);
      assert b == p + Digits(second) + q + Digits(y);
      SplitNumbers(p, first, q, x, second, y);
    } else {
      assert Prefix(t, copy, first) == Prefix(t, copy, second);
      SameEnd(Prefix(t, copy, first), x, y);
    }
  }

  lemma SameEnd(p: string, m: nat, n: nat)
    ensures p + Digits(m) == p + Digits(n) ==> m == n
  {
    var a, b := p + Digits(m), p + Digits(n);
    if a == b {
      assert a[|p|..] == Digits(m) && b[|p|..] == Digits(n);
      SameDigits(m, n);
    }
  }

  /** With as many lines in a sample as a tag's range has ids, which is the default for the
      tag with the largest cardinality, each of its ids is printed in exactly one line of
      every sample. */
  lemma SamplePrintsEveryIdOnce(out: seq<seq<string>>, list: seq<(TagSpec, nat)>, j: nat, writer: nat, writers: nat,
                                sample: nat, id: nat, line: nat)
    requires 1 <= writer <= writers && InTurn(out, list, writer, writers) && j < |list| && line < |out|
    requires list[j].0.cardinality.Some? && list[j].0.cardinality.value > 0
    requires var r := CardinalityMinMax(list[j].0.cardinality, writer, writers).value; r.0 <= id <= r.1
    requires var d := DivCeil(list[j].0.cardinality.value, writers); sample * d <= line < sample * d + d
    ensures |out[line]| == |list|
    ensures var c := list[j].0.cardinality;
            out[line][j] == Prefix(list[j].0, list[j].1, writer) + Digits(id) <==>
            line == sample * DivCeil(c.value, writers) + (id - CardinalityMinMax(c, writer, writers).value.0)
  {
    var c := list[j].0.cardinality.value;
    SampleCoversTheRange(c, writer, writers, sample, id, line);
    SameEnd(Prefix(list[j].0, list[j].1, writer), IdAt(c, writer, writers, line), id);
  }

  /** The default: in the output of `WriteSamples`, each id of a tag with the largest
      cardinality is printed in exactly one line of every sample. */
  lemma DefaultSamplesPrintEveryIdOnce(out: seq<seq<string>>, perSample: nat, specs: seq<TagSpec>, largest: nat, j: nat,
                                       writer: nat, writers: nat, sample: nat, id: nat, line: nat)
    requires 1 <= writer <= writers && InTurn(out, Copies(specs), writer, writers)
    requires IsLinesPerSample(perSample, specs, None, writers)
    requires IsLargest(specs, largest) && specs[largest].cardinality.Some? && specs[largest].cardinality.value > 0
    requires j < |Copies(specs)| && Copies(specs)[j].0 == specs[largest]
    requires var r := CardinalityMinMax(specs[largest].cardinality, writer, writers).value; r.0 <= id <= r.1
    requires sample * perSample <= line < sample * perSample + perSample && line < |out|
    ensures |out[line]| == |Copies(specs)|
    ensures out[line][j] == Prefix(specs[largest], Copies(specs)[j].1, writer) + Digits(id) <==>
            line == sample * perSample + (id - CardinalityMinMax(specs[largest].cardinality, writer, writers).value.0)
  {
    var k :| 0 <= k < |specs| && IsLargest(specs, k) && perSample == DivCeil(CardinalityOf(specs[k]), writers);
    assert CardinalityOf(specs[k]) == CardinalityOf(specs[largest]);
    SamplePrintsEveryIdOnce(out, Copies(specs), j, writer, writers, sample, id, line);
  }
}
