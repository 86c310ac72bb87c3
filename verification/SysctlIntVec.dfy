/** __do_proc_dointvec with the plain and the minmax conversion: an int vector printed and parsed as text. */
module SysctlIntVec {
  import opened Digits
  import opened Texts
  import opened Wrappers

  const PAGE_SIZE: nat := 4096
  const INT_MIN: int := -0x8000_0000
  const INT_MAX: int := 0x7FFF_FFFF
  const WSPACE: seq<char> := [' ', '\t', '\n']

  type Int32 = v: int | INT_MIN <= v <= INT_MAX

  datatype Bounds = Bounds(min: Option<Int32>, max: Option<Int32>) {
    predicate Admits(v: int) {
      (min.Some? ==> min.value <= v) && (max.Some? ==> v <= max.value)
    }
  }

  predicate IsSpace(c: char) { '\t' <= c <= '\r' || c == ' ' || c as int == 160 }

  function SkipSpaces(s: string): (r: string)
    ensures |r| <= |s| && r == s[|s| - |r|..]
    ensures r != [] ==> !IsSpace(r[0])
  {
    if s != [] && IsSpace(s[0]) then SkipSpaces(s[1..]) else s
  }

  /** do_proc_dointvec_conv and the range check: the sign is applied before the range is checked, and nothing
      is stored when either fails. */
  function Convert(p: Parsed, bounds: Bounds): (r: Option<Int32>)
    ensures r.Some? ==> bounds.Admits(r.value)
  {
    if p.value > (if p.neg then INT_MAX + 1 else INT_MAX) then None
    else
      var v: int := if p.neg then 0 - p.value else p.value;
      if bounds.Admits(v) then Some(v) else None
  }

  /** What a write stores in the first elements, what it leaves unread, and whether it stopped at an error. */
  datatype Outcome = Outcome(values: seq<Int32>, left: nat, err: bool)

  function ParseVec(text: string, slots: nat, bounds: Bounds): (o: Outcome)
    ensures |o.values| <= slots && o.left <= |text|
    decreases slots
  {
    var t := SkipSpaces(text);
    if t == [] || slots == 0 then Outcome([], |t|, false)
    else
      match GetLong(t, WSPACE)
      case None => Outcome([], |t|, true)
      case Some(p) =>
        match Convert(p, bounds)
        case None => Outcome([], |t| - p.used, true)
        case Some(v) =>
          var o := ParseVec(t[p.used..], slots - 1, bounds);
          Outcome([v] + o.values, o.left, o.err)
  }

  function Joined(done: seq<Int32>, o: Outcome): Outcome {
    o.(values := done + o.values)
  }

  // ---- Printing ----

  function Size(v: int): nat { if v < 0 then -v else v }

  function Number(v: Int32): (s: string)
    ensures s != [] && !IsSpace(s[0])
  {
    if v < 0 then "-" + Decimal(Size(v)) else Decimal(Size(v))
  }

  /** The numbers with a tab between each two. */
  function Join(vals: seq<Int32>): string {
    if vals == [] then []
    else if |vals| == 1 then Number(vals[0])
    else Join(vals[..|vals| - 1]) + "\t" + Number(vals[|vals| - 1])
  }

  function Print(vals: seq<Int32>): string {
    if vals == [] then [] else Join(vals) + "\n"
  }

  // ---- Texts ----

  /** White space that ends a number; after the last number there may be none. */
  predicate Gap(g: string, last: bool) {
    && (forall i :: 0 <= i < |g| ==> IsSpace(g[i]))
    && (if g == [] then last else g[0] in WSPACE)
  }

  ghost predicate Gaps(gaps: seq<string>) {
    forall i :: 0 <= i < |gaps| ==> Gap(gaps[i], i == |gaps| - 1)
  }

  /** Each number followed by its own white space. */
  function Spaced(vals: seq<Int32>, gaps: seq<string>): string
    requires |gaps| == |vals|
  {
    if vals == [] then [] else Number(vals[0]) + gaps[0] + Spaced(vals[1..], gaps[1..])
  }

  /** How many of the first values are admitted. */
  function Admitted(vals: seq<Int32>, bounds: Bounds): (n: nat)
    ensures n <= |vals|
    ensures forall i :: 0 <= i < n ==> bounds.Admits(vals[i])
    ensures n < |vals| ==> !bounds.Admits(vals[n])
  {
    if vals == [] || !bounds.Admits(vals[0]) then 0 else 1 + Admitted(vals[1..], bounds)
  }

  lemma {:induction false} SkipGap(g: string, rest: string)
    requires forall i :: 0 <= i < |g| ==> IsSpace(g[i])
    requires rest == [] || !IsSpace(rest[0])
    ensures SkipSpaces(g + rest) == rest
  {
    if g == [] {
      assert g + rest == rest;
    } else {
      assert (g + rest)[1..] == g[1..] + rest;
      SkipGap(g[1..], rest);
    }
  }

  /** One printed number is read back, INT_MIN included. */
  lemma GetNumber(v: Int32, rest: string)
    requires rest == [] || rest[0] in WSPACE
    ensures var r := GetLong(Number(v) + rest, WSPACE);
      && r.Some? && r.value.used == |Number(v)|
      && r.value.value == Size(v) && r.value.neg == (v < 0)
  {
    hide GetLong, Decimal;
    var n := Size(v);
    DecimalIsNumber(n);
    NineteenDigits(n);
    assert Number(v) == (if v < 0 then "-" else "") + Decimal(n);
    GetSpelled(Decimal(n), v < 0, rest, WSPACE);
  }

  lemma NineteenDigits(n: nat)
    requires n <= INT_MAX + 1
    ensures |Decimal(n)| <= 19
  {
    assert Power10(10) == 10000000000;
    DecimalLength(n, 10);
  }

  /** One number at the start of a text. */
  lemma ParseNumber(v: Int32, lead: string, rest: string, slots: nat, bounds: Bounds)
    requires rest == [] || rest[0] in WSPACE
    requires slots > 0 && forall i :: 0 <= i < |lead| ==> IsSpace(lead[i])
    ensures ParseVec(lead + (Number(v) + rest), slots, bounds)
      == if bounds.Admits(v) then Joined([v], ParseVec(rest, slots - 1, bounds)) else Outcome([], |rest|, true)
  {
    hide GetLong, Number, SkipSpaces, Convert, ParseVec;
    var t := Number(v) + rest;
    SkipGap(lead, t);
    GetNumber(v, rest);
    assert t[|Number(v)|..] == rest;
    var p := GetLong(t, WSPACE).value;
    ConvertNumber(v, p, bounds);
    ParseStep(lead + t, slots, bounds);
  }

  lemma ConvertNumber(v: Int32, p: Parsed, bounds: Bounds)
    requires p.value == Size(v) && p.neg == (v < 0)
    ensures Convert(p, bounds) == if bounds.Admits(v) then Some(v) else None
  {
  }

  /** A number is stored exactly if it is an int and in range, and then as it is written. */
  lemma ConvertIsExact(p: Parsed, bounds: Bounds, v: Int32)
    ensures Convert(p, bounds) == Some(v) <==> v == (if p.neg then -1 else 1) * p.value && bounds.Admits(v)
    ensures Convert(p, bounds).None? <==>
      var w := (if p.neg then -1 else 1) * p.value; w < -2147483648 || w > 2147483647 || !bounds.Admits(w)
  {
  }

  /** The white space of the kernel's isspace: tab to carriage return, blank, and the unbreakable blank. */
  lemma SpacesAre(c: char)
    ensures IsSpace(c) <==> c as int in {9, 10, 11, 12, 13, 32, 160}
  {
  }

  /** One turn of the loop. */
  lemma ParseStep(text: string, slots: nat, bounds: Bounds)
    requires slots > 0
    ensures var t := SkipSpaces(text);
      var got := GetLong(t, WSPACE);
      ParseVec(text, slots, bounds)
      == if t == [] then Outcome([], 0, false)
         else if got.None? then Outcome([], |t|, true)
         else if Convert(got.value, bounds).None? then Outcome([], |t| - got.value.used, true)
         else Joined([Convert(got.value, bounds).value], ParseVec(t[got.value.used..], slots - 1, bounds))
  {
    hide GetLong, SkipSpaces, Convert;
  }

  /** A text of numbers in any white space, after any white space: the numbers are stored in order up to the
      first that is out of range or has no place, and it is an error exactly if one out of range was met. */
  lemma {:induction false} ParseSpaced(vals: seq<Int32>, gaps: seq<string>, lead: string, slots: nat, bounds: Bounds)
    requires |gaps| == |vals| && Gaps(gaps) && forall i :: 0 <= i < |lead| ==> IsSpace(lead[i])
    ensures var o := ParseVec(lead + Spaced(vals, gaps), slots, bounds);
      var n := Admitted(vals, bounds);
      && o.values == vals[..if n < slots then n else slots]
      && (o.err <==> n < |vals| && n < slots)
      && (slots >= |vals| && !o.err ==> o.left == 0)
    decreases |vals|
  {
    hide ParseVec, Number, IsSpace;
    var text := Spaced(vals, gaps);
    if vals == [] || slots == 0 {
      NothingToParse(lead, text, slots, bounds);
    } else {
      var rest := gaps[0] + Spaced(vals[1..], gaps[1..]);
      assert Gap(gaps[0], |vals| == 1);
      assert text == Number(vals[0]) + rest;
      assert gaps[0] == [] ==> rest == [];
      ParseNumber(vals[0], lead, rest, slots, bounds);
      if bounds.Admits(vals[0]) {
        ParseSpaced(vals[1..], gaps[1..], gaps[0], slots - 1, bounds);
        var n := Admitted(vals[1..], bounds);
        assert Admitted(vals, bounds) == n + 1;
        var m := if n < slots - 1 then n else slots - 1;
        assert vals[..m + 1] == [vals[0]] + vals[1..][..m];
      } else {
        assert vals[..0] == [];
      }
    }
  }

  lemma NoMoreSlots(text: string, bounds: Bounds)
    ensures ParseVec(text, 0, bounds) == Outcome([], |SkipSpaces(text)|, false)
  {
    hide SkipSpaces;
  }

  lemma NothingToParse(lead: string, text: string, slots: nat, bounds: Bounds)
    requires forall i :: 0 <= i < |lead| ==> IsSpace(lead[i])
    requires text == [] || slots == 0
    ensures var o := ParseVec(lead + text, slots, bounds);
      o.values == [] && !o.err && (text == [] ==> o.left == 0)
  {
    if text == [] {
      SkipGap(lead, text);
    }
  }

  function PrintedGaps(n: nat): seq<string> {
    if n == 0 then [] else if n == 1 then ["\n"] else ["\t"] + PrintedGaps(n - 1)
  }

  lemma {:induction false} PrintedGapsAre(n: nat)
    ensures |PrintedGaps(n)| == n && Gaps(PrintedGaps(n))
  {
    if n > 1 {
      PrintedGapsAre(n - 1);
    }
  }

  lemma {:induction false} JoinFirst(vals: seq<Int32>)
    requires |vals| > 1
    ensures Join(vals) == Number(vals[0]) + "\t" + Join(vals[1..])
  {
    hide Number;
    var k := |vals| - 1;
    assert vals[1..][|vals[1..]| - 1] == vals[k];
    if k == 1 {
      assert vals[..1][0] == vals[0];
    } else {
      JoinFirst(vals[..k]);
      assert vals[..k][1..] == vals[1..][..k - 1];
    }
  }

  lemma {:induction false} JoinPrefix(vals: seq<Int32>, i: nat)
    requires i <= |vals|
    ensures Join(vals[..i]) <= Join(vals)
    decreases |vals|
  {
    hide Number;
    if i == |vals| {
      assert vals[..i] == vals;
    } else if i > 0 {
      JoinPrefix(vals[..|vals| - 1], i);
      assert vals[..|vals| - 1][..i] == vals[..i];
    }
  }

  lemma {:induction false} PrintIsSpaced(vals: seq<Int32>)
    ensures |PrintedGaps(|vals|)| == |vals|
    ensures Print(vals) == Spaced(vals, PrintedGaps(|vals|))
  {
    hide Number;
    PrintedGapsAre(|vals|);
    if |vals| > 1 {
      JoinFirst(vals);
      PrintIsSpaced(vals[1..]);
    }
  }

  /** Parsing what was printed gives back every element. */
  lemma RoundTrip(vals: seq<Int32>, bounds: Bounds)
    requires forall i :: 0 <= i < |vals| ==> bounds.Admits(vals[i])
    ensures ParseVec(Print(vals), |vals|, bounds) == Outcome(vals, 0, false)
  {
    hide ParseVec;
    PrintIsSpaced(vals);
    PrintedGapsAre(|vals|);
    ParseSpaced(vals, PrintedGaps(|vals|), "", |vals|, bounds);
    assert "" + Print(vals) == Print(vals);
    assert vals[..|vals|] == vals;
  }

  /** Whatever the text, what a write stores is in range. */
  lemma {:induction false} StoredAreAdmitted(text: string, slots: nat, bounds: Bounds)
    ensures var stored := ParseVec(text, slots, bounds).values;
      forall i :: 0 <= i < |stored| ==> bounds.Admits(stored[i])
    decreases slots
  {
    hide GetLong, Convert, SkipSpaces, ParseVec, Bounds.Admits;
    if slots == 0 {
      NoMoreSlots(text, bounds);
    } else {
      ParseStep(text, slots, bounds);
      var t := SkipSpaces(text);
      var p := GetLong(t, WSPACE);
      if t != [] && p.Some? && Convert(p.value, bounds).Some? {
        StoredAreAdmitted(t[p.value.used..], slots - 1, bounds);
      }
    }
  }

  class Table {
    const data: array<Int32>
    const bounds: Bounds

    constructor (data: array<Int32>, bounds: Bounds)
      ensures this.data == data && this.bounds == bounds
    {
      this.data, this.bounds := data, bounds;
    }

    /** A read, from the start only: the numbers, tabs between them and a newline, as far as they fit. */
    method Read(size: nat, pos: nat) returns (out: string, pos': nat)
      ensures pos' == pos + |out|
      ensures out == if pos == 0 then Clip(Print(data[..]), size) else ""
    {
      hide Number;
      if data.Length == 0 || size == 0 || pos != 0 {
        return "", pos;
      }
      out := "";
      var i := 0;
      while |out| < size && i < data.Length
        invariant i <= data.Length && out == Clip(Join(data[..i]), size)
      {
        var number := Number(data[i]);
        assert data[..i + 1][..i] == data[..i];
        ghost var so := out;
        if i > 0 {
          out := out + "\t";
        }
        out := out + Clip(number, size - |out|);
        assert Join(data[..i + 1]) == if i == 0 then number else so + "\t" + number;
        i := i + 1;
      }
      if |out| < size {
        assert data[..i] == data[..];
        out := out + "\n";
      } else {
        JoinPrefix(data[..], i);
        assert data[..][..i] == data[..i];
      }
      pos' := |out|;
    }

    /** A write stores what the first page of the text parses to, element by element, also when it stops at
        an error; the rest of the vector stays. A write away from position 0 is ignored in strict mode. */
    method Write(buffer: string, pos: nat, strict: bool) returns (ok: bool, count: nat, pos': nat)
      modifies data
      ensures Writes(buffer, pos, strict) ==>
        var o := ParseVec(Clip(buffer, 4095), data.Length, bounds);
        && data[..] == o.values + old(data[..])[|o.values|..]
        && (ok <==> o.values != [] && !o.err)
        && count == (if o.values == [] then |buffer| else |buffer| - o.left)
        && pos' == (if o.values == [] then pos else pos + count)
      ensures !Writes(buffer, pos, strict) ==> ok && data[..] == old(data[..])
      ensures !Writes(buffer, pos, strict) ==>
        if data.Length == 0 || buffer == [] then count == 0 && pos' == pos else count == |buffer| && pos' == pos + count
    {
      hide ParseVec, Clip;
      if data.Length == 0 || buffer == [] {
        return true, 0, pos;
      }
      if pos != 0 && strict {
        return true, |buffer|, pos + |buffer|;
      }
      var stored, left, err := Store(Clip(buffer, PAGE_SIZE - 1));
      if stored == 0 {
        return false, |buffer|, pos;
      }
      return !err, |buffer| - left, pos + |buffer| - left;
    }

    /** The loop of a write. */
    method Store(text: string) returns (i: nat, left: nat, err: bool)
      modifies data
      ensures i <= data.Length && data[i..] == old(data[i..])
      ensures ParseVec(text, data.Length, bounds) == Outcome(data[..i], left, err)
    {
      hide GetLong, SkipSpaces, Convert, ParseVec;
      var p := text;
      ghost var o := ParseVec(text, data.Length, bounds);
      i, err := 0, false;
      while p != [] && i < data.Length
        invariant i <= data.Length && !err
        invariant data[i..] == old(data[i..])
        invariant Joined(data[..i], ParseVec(p, data.Length - i, bounds)) == o
        decreases data.Length - i
      {
        ParseStep(p, data.Length - i, bounds);
        p := SkipSpaces(p);
        if p == [] {
          break;
        }
        var got := GetLong(p, WSPACE);
        if got.None? {
          err := true;
          break;
        }
        p := p[got.value.used..];
        var v := Convert(got.value, bounds);
        if v.None? {
          err := true;
          break;
        }
        ghost var done := data[..i];
        ghost var rest := data[i..];
        data[i] := v.value;
        i := i + 1;
        assert data[..i] == done + [v.value] && data[i..] == rest[1..];
      }
      NothingToParse("", "", data.Length - i, bounds);
      if !err && p != [] {
        NoMoreSlots(p, bounds);
        p := SkipSpaces(p);
      }
      left := |p|;
    }

    predicate Writes(buffer: string, pos: nat, strict: bool) {
      data.Length > 0 && buffer != [] && (pos == 0 || !strict)
    }

    /** After any writes, failed ones included, each element is as it was or inside the range. */
    method WriteMany(calls: seq<(string, nat)>, strict: bool)
      modifies data
      ensures forall i :: 0 <= i < data.Length ==> data[i] == old(data[i]) || bounds.Admits(data[i])
    {
      for k := 0 to |calls|
        invariant forall i :: 0 <= i < data.Length ==> data[i] == old(data[i]) || bounds.Admits(data[i])
      {
        hide ParseVec, Clip;
        ghost var before := data[..];
        var (buffer, pos) := calls[k];
        var ok, count, pos' := Write(buffer, pos, strict);
        ghost var after := data[..];
        StoredAreAdmitted(Clip(buffer, PAGE_SIZE - 1), data.Length, bounds);
        forall i | 0 <= i < data.Length ensures data[i] == old(data[i]) || bounds.Admits(data[i]) {
          assert data[i] == after[i] && before[i] == before[i];
        }
      }
    }
  }

  /** Reading a vector and writing the text to one of the same length, which may be the same one, makes that
      what the first was. */
  method Copy(from: Table, to: Table, size: nat) returns (ok: bool)
    requires from.data.Length == to.data.Length
    requires |Print(from.data[..])| <= size && |Print(from.data[..])| < PAGE_SIZE
    requires forall i :: 0 <= i < from.data.Length ==> to.bounds.Admits(from.data[i])
    modifies to.data
    ensures ok && to.data[..] == old(from.data[..])
  {
    hide ParseVec, Print;
    var text, _ := from.Read(size, 0);
    RoundTrip(from.data[..], to.bounds);
    PrintNotEmpty(from.data[..]);
    var count, pos;
    ok, count, pos := to.Write(text, 0, true);
  }

  lemma PrintNotEmpty(vals: seq<Int32>)
    ensures Print(vals) == [] <==> vals == []
  {
  }
}
