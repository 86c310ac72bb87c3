/** proc_do_large_bitmap: a bitmap printed as a list of bits and ranges, and written from such lists in as many
    calls as a text longer than a page needs. */
module SysctlBitmap {
  import opened Digits
  import opened RangeList
  import opened Texts

  // ---- Printing ----

  /** find_next_bit */
  function NextBit(bits: set<nat>, length: nat, from: nat): (r: nat)
    requires from <= length
    ensures from <= r <= length && (r < length ==> r in bits)
    ensures forall x: nat :: from <= x < r ==> x !in bits
    decreases length - from
  {
    if from == length || from in bits then from else NextBit(bits, length, from + 1)
  }

  /** find_next_zero_bit */
  function NextZeroBit(bits: set<nat>, length: nat, from: nat): (r: nat)
    requires from <= length
    ensures from <= r <= length && (r < length ==> r !in bits)
    ensures forall x: nat :: from <= x < r ==> x in bits
    decreases length - from
  {
    if from == length || from !in bits then from else NextZeroBit(bits, length, from + 1)
  }

  /** What is printed for the bits from a to b. */
  function Run(a: nat, b: nat): Item {
    if a == b then One(Decimal(a)) else Range(Decimal(a), Decimal(b))
  }

  /** The runs of set bits from here on, a comma after each but the last, a newline after that. */
  function Runs(bits: set<nat>, length: nat, from: nat): seq<Entry>
    requires from <= length
    decreases length - from
  {
    var a := NextBit(bits, length, from);
    if a == length then []
    else
      var b := NextZeroBit(bits, length, a + 1) - 1;
      var rest := Runs(bits, length, b + 1);
      [Entry(Run(a, b), if rest == [] then '\n' else ',', 0)] + rest
  }

  /** What a read prints: the runs; for an empty bitmap just a newline. */
  function Printed(bits: set<nat>, length: nat): string {
    var runs := Runs(bits, length, 0);
    FileText(if runs == [] then 1 else 0, runs)
  }

  lemma RunIs(a: nat, b: nat, length: nat)
    requires a <= b < length <= ULONG_MAX
    ensures Run(a, b).Good(length) && Run(a, b).First() == a && Run(a, b).Last() == b
  {
    hide IsNumber, NumberValue, Decimal;
    DecimalIsNumber(a);
    DecimalIsNumber(b);
  }

  /** The runs are well-formed and cover exactly the bits. */
  lemma {:induction false} RunsCover(bits: set<nat>, length: nat, from: nat)
    requires from <= length <= ULONG_MAX
    ensures AllGood(Runs(bits, length, from), length)
    ensures Union(Runs(bits, length, from)) == set x | x in bits && from <= x < length
    decreases length - from
  {
    hide Run, Item.Good, Item.First, Item.Last, Span, NextBit, NextZeroBit;
    var a := NextBit(bits, length, from);
    if a < length {
      var b := NextZeroBit(bits, length, a + 1) - 1;
      RunsCover(bits, length, b + 1);
      RunIs(a, b, length);
      var runs := Runs(bits, length, from);
      assert runs[1..] == Runs(bits, length, b + 1);
      SpanIs(bits, from, a, b);
      TwoParts(bits, from, b + 1, length);
    }
  }

  lemma TwoParts(bits: set<nat>, from: nat, middle: nat, length: nat)
    requires from <= middle <= length
    ensures (set x | x in bits && from <= x < middle) + (set x | x in bits && middle <= x < length)
      == set x | x in bits && from <= x < length
  {
  }

  lemma SpanIs(bits: set<nat>, from: nat, a: nat, b: nat)
    requires from <= a <= b && (forall x: nat :: from <= x < a ==> x !in bits)
    requires (forall x: nat :: a <= x <= b ==> x in bits)
    ensures Span(a, b) == set x | x in bits && from <= x < b + 1
  {
    forall x: nat ensures x in Span(a, b) <==> a <= x <= b {
      assert Within(a, x, b) || !Within(a, x, b);
    }
  }

  /** The rest of the output, with its commas. */
  function Joined(first: bool, runs: seq<Entry>): string {
    if runs == [] then [] else (if first then "" else ",") + runs[0].item.Text() + Joined(false, runs[1..])
  }

  lemma {:induction false} JoinedIsListText(bits: set<nat>, length: nat, from: nat, first: bool)
    requires from <= length && Runs(bits, length, from) != []
    ensures var runs := Runs(bits, length, from);
      Joined(first, runs) + "\n" == (if first then "" else ",") + ListText(runs)
    decreases length - from
  {
    hide Item.Text, NextBit, NextZeroBit, Run;
    var runs := Runs(bits, length, from);
    var b := NextZeroBit(bits, length, NextBit(bits, length, from) + 1) - 1;
    assert runs[1..] == Runs(bits, length, b + 1);
    FirstText(runs);
    assert FileText(0, runs[1..]) == ListText(runs[1..]);
    if runs[1..] != [] {
      JoinedIsListText(bits, length, b + 1, false);
      Reassociate(if first then "" else ",", runs[0].item.Text(), Joined(false, runs[1..]), ListText(runs[1..]));
    }
  }

  lemma Reassociate(comma: string, t: string, joined: string, list: string)
    requires joined + "\n" == "," + list
    ensures comma + t + joined + "\n" == comma + (t + [','] + list)
  {
    assert comma + t + joined + "\n" == comma + t + (joined + "\n");
    assert comma + t + ("," + list) == comma + (t + [','] + list);
  }

  /** How many characters a call looks at. */
  function Page(text: string): nat { if |text| > PAGE_SIZE - 1 then PAGE_SIZE - 1 else |text| }

  class Table {
    const length: nat
    var bits: set<nat>

    constructor (length: nat)
      ensures this.length == length && bits == {}
    {
      this.length := length;
      bits := {};
    }

    /** The write half: parse at most a page into a temporary bitmap, if there is memory for one, and only if
        that succeeds copy it at position 0 or add it elsewhere. */
    method Write(buf: string, pos: nat, c0: char, memory: bool) returns (ok: bool, consumed: nat)
      modifies this
      ensures buf == [] || length == 0 ==> ok && consumed == 0 && bits == old(bits)
      ensures buf != [] && length > 0 && !memory ==> !ok && bits == old(bits)
      ensures buf != [] && length > 0 && memory ==>
        match Call(buf, Page(buf), c0, length, {}) {
          case Failed => !ok && bits == old(bits)
          case Parsed(b, left) => ok && consumed == Page(buf) - left && bits == if pos == 0 then b else old(bits) + b
        }
    {
      hide ParseItem, SkipNewlines, Span;
      if buf == [] || length == 0 {
        return true, 0;
      }
      if !memory {
        return false, 0;
      }
      var n := Page(buf);
      var cut := n < |buf|;
      var tmp: set<nat> := {};
      var text, c := SkipNewlines(buf[..n]), c0;
      ghost var goal := ParseAll(text, cut, c, length, tmp);
      while text != []
        invariant |text| <= n && ParseAll(text, cut, c, length, tmp) == goal
        invariant bits == old(bits)
        decreases |text|
      {
        var item := ParseItem(text, cut, c, length);
        match item {
          case Bad => return false, 0;
          case Again => break;
          case Got(a, b, used, c') =>
            tmp := tmp + Span(a, b);
            text := SkipNewlines(text[used..]);
            c := c';
        }
      }
      bits := if pos == 0 then tmp else bits + tmp;
      return true, n - |text|;
    }

    /** The read half: as much of the printed list as fits. */
    method Read(size: nat, pos: nat) returns (out: string)
      ensures pos > 0 || length == 0 ==> out == ""
      ensures pos == 0 && length > 0 ==> out == Clip(Printed(bits, length), size)
    {
      if pos > 0 || length == 0 || size == 0 {
        return "";
      }
      out := Print(bits, length, size);
    }
  }

  /** proc_put_char and proc_put_long: append what fits. */
  method Put(out: string, s: string, size: nat, ghost done: string) returns (out': string)
    requires out == Clip(done, size)
    ensures out' == Clip(done + s, size)
  {
    ClipAppend(done, s, size);
    var room := size - |out|;
    out' := out + if |s| <= room then s else s[..room];
  }

  /** The commas, numbers and dashes of one run. */
  method PutRun(out: string, first: bool, a: nat, b: nat, size: nat, ghost done: string) returns (out': string)
    requires out == Clip(done, size)
    ensures out' == Clip(done + ((if first then "" else ",") + Run(a, b).Text()), size)
  {
    hide Clip, Decimal;
    out' := out;
    ghost var so := done;
    if !first {
      out' := Put(out', ",", size, so);
      so := so + ",";
    }
    out' := Put(out', Decimal(a), size, so);
    so := so + Decimal(a);
    if a != b {
      out' := Put(out', "-", size, so);
      so := so + "-";
      out' := Put(out', Decimal(b), size, so);
      so := so + Decimal(b);
    }
    assert so == done + ((if first then "" else ",") + Run(a, b).Text());
  }

  method Print(bits: set<nat>, length: nat, size: nat) returns (out: string)
    ensures out == Clip(Printed(bits, length), size)
  {
    hide Item.Text, Runs, Joined, NextBit, NextZeroBit, Clip, Printed, Run;
    var first, from := true, 0;
    ghost var done := "";
    ghost var full := Printed(bits, length);
    FullText(bits, length);
    out := "";
    ClipEmpty(size);
    while |out| < size
      invariant from <= length && out == Clip(done, size)
      invariant full == done + (Joined(first, Runs(bits, length, from)) + "\n")
      decreases length - from, size - |out|
    {
      var a := NextBit(bits, length, from);
      if a >= length {
        break;
      }
      var b := NextZeroBit(bits, length, a + 1) - 1;
      out := PutRun(out, first, a, b, size, done);
      RunsStep(bits, length, from, first, done);
      done := done + ((if first then "" else ",") + Run(a, b).Text());
      first, from := false, b + 1;
    }
    if |out| < size {
      RunsEnd(bits, length, from, first);
      out := Put(out, "\n", size, done);
    } else {
      ClipFull(done, Joined(first, Runs(bits, length, from)) + "\n", size);
    }
  }

  lemma RunsEnd(bits: set<nat>, length: nat, from: nat, first: bool)
    requires from <= length && NextBit(bits, length, from) == length
    ensures Joined(first, Runs(bits, length, from)) + "\n" == "\n"
  {
  }

  lemma RunsStep(bits: set<nat>, length: nat, from: nat, first: bool, done: string)
    requires from <= length && NextBit(bits, length, from) < length
    ensures var a := NextBit(bits, length, from);
      var b := NextZeroBit(bits, length, a + 1) - 1;
      var piece := (if first then "" else ",") + Run(a, b).Text();
      done + (Joined(first, Runs(bits, length, from)) + "\n")
      == done + piece + (Joined(false, Runs(bits, length, b + 1)) + "\n")
  {
    hide Item.Text, NextBit, NextZeroBit, Run;
    var a := NextBit(bits, length, from);
    var b := NextZeroBit(bits, length, a + 1) - 1;
    var runs := Runs(bits, length, from);
    assert runs[0].item == Run(a, b) && runs[1..] == Runs(bits, length, b + 1);
  }

  lemma FullText(bits: set<nat>, length: nat)
    ensures Joined(true, Runs(bits, length, 0)) + "\n" == Printed(bits, length)
  {
    hide NextBit, NextZeroBit;
    var runs := Runs(bits, length, 0);
    if runs == [] {
      assert Newlines(1) == ['\n'] + Newlines(0);
    } else {
      JoinedIsListText(bits, length, 0, true);
      assert FileText(0, runs) == ListText(runs);
    }
  }

  // ---- Round trip and long writes ----

  /** Writing what was read from a bitmap to one of the same length, which may be the same one, makes that
      what the first was, whatever it held. */
  method RoundTrip(from: Table, to: Table, size: nat, c0: char) returns (text: string)
    requires 0 < from.length == to.length <= ULONG_MAX && forall x :: x in from.bits ==> x < from.length
    requires |Printed(from.bits, from.length)| <= size && |Printed(from.bits, from.length)| < PAGE_SIZE
    modifies to
    ensures to.bits == old(from.bits)
  {
    ghost var bits := from.bits;
    text := from.Read(size, 0);
    ReadsBack(bits, from.length, c0);
    hide Printed, ParseAll;
    assert text[..|text|] == text;
    var ok, consumed := to.Write(text, 0, c0, true);
  }

  /** Parsing what was printed gives back the bitmap. */
  lemma ReadsBack(bits: set<nat>, length: nat, c: char)
    requires length <= ULONG_MAX && forall x :: x in bits ==> x < length
    ensures Printed(bits, length) != []
    ensures Call(Printed(bits, length), |Printed(bits, length)|, c, length, {}) == Outcome.Parsed(bits, 0)
  {
    hide Runs, ListText, Call;
    var runs := Runs(bits, length, 0);
    var lead := if runs == [] then 1 else 0;
    RunsCover(bits, length, 0);
    NoText(runs);
    NewlinesAre(lead);
    var text := Printed(bits, length);
    var k, lead' := ParseList(lead, runs, |text|, c, length, {});
    assert runs[..k] == runs && runs[k..] == [] && {} + Union(runs) == Union(runs);
    NoText([]);
    assert FileText(0, []) == [];
    assert (set x | x in bits && 0 <= x < length) == bits;
  }

  /** One call on a well-formed text: it fails if and only if its page ends right after the 0x or 0X of a
      number; otherwise it makes progress and stops in front of an entry or between blank lines. */
  lemma OneCall(lead: nat, list: seq<Entry>, c: char, length: nat) returns (k: nat, lead': nat)
    requires AllGood(list, length) && FileText(lead, list) != []
    ensures var text := FileText(lead, list);
      var out := Call(text, Page(text), c, length, {});
      && k <= |list|
      && (out == Failed <==> PrefixBefore(text, Page(text)))
      && (!out.Failed? ==>
            && Leaves(list, text, Page(text), out, {}, k, lead')
            && |FileText(lead', list[k..])| < |text|)
  {
    hide FileText, Call, EndsInX, PrefixBefore, Union;
    k, lead' := ParseList(lead, list, Page(FileText(lead, list)), c, length, {});
    XMeansPrefix(lead, list, Page(FileText(lead, list)), length);
  }

  /** A text with such a page: blank lines up to the last but two characters of the page, and then 0x1. */
  lemma CallFailsAt(c: char) returns (list: seq<Entry>)
    ensures AllGood(list, 100) && |FileText(4093, list)| == 4097
    ensures Call(FileText(4093, list), Page(FileText(4093, list)), c, 100, {}) == Failed
  {
    hide Call, Newlines, ListText;
    list := [Entry(One("0x1"), '\n', 0)];
    ReadHexadecimal();
    NewlinesAre(4093);
    FirstText(list);
    NewlinesAre(0);
    NoText(list[1..]);
    var text := FileText(4093, list);
    assert ListText(list) == "0x1\n";
    assert text[4093..4095] == "0x";
    var k, lead := OneCall(4093, list, c, 100);
  }

  lemma ReadHexadecimal()
    ensures IsNumber("0x1") && NumberValue("0x1") == 1
  {
    assert "0x1"[2..] == "1" && "1"[..0] == "";
  }

  /** A call at position p of the text ends its page right after the 0x or 0X of a number. */
  predicate CutsPrefix(text: string, p: nat)
    requires p <= |text|
  {
    PrefixBefore(text[p..], Page(text[p..]))
  }

  lemma CutsAtX(text: string, p: nat) returns (i: nat)
    requires p <= |text| && CutsPrefix(text, p)
    ensures i < |text| && IsX(text[i])
  {
    var n := Page(text[p..]);
    assert IsX(text[p..][n - 2..n][1]);
    i := p + n - 1;
  }

  /** A well-formed text of any length, its numbers in any spelling, written by calls at the positions starts
      that each go on where the one before stopped. All of them succeed if and only if none ends its page right
      after the 0x or 0X of a number, and then the bits are exactly the union of the ranges. A call that fails
      leaves what the calls before it have set, which is the union of the first entries. Every call that does
      not fail makes progress. */
  method WriteLongText(table: Table, lead: nat, list: seq<Entry>)
    returns (ok: bool, starts: seq<nat>, ghost taken: nat)
    requires table.length > 0 && AllGood(list, table.length)
    modifies table
    ensures var text := FileText(lead, list);
      && taken <= |list| && (starts == [] <==> text == []) && (starts != [] ==> starts[0] == 0)
      && (forall i :: 0 <= i < |starts| ==> starts[i] < |text|)
      && (forall i :: 0 < i < |starts| ==> starts[i - 1] < starts[i])
      && (ok <==> forall i :: 0 <= i < |starts| ==> !CutsPrefix(text, starts[i]))
      && ((forall i :: 0 <= i < |text| ==> !IsX(text[i])) ==> ok)
      && (ok ==> taken == |list|)
    ensures table.bits == if (if ok then starts == [] else |starts| <= 1) then old(table.bits) else Union(list[..taken])
  {
    hide FileText, Call, Leaves, PrefixBefore, Union, AllGood;
    var text := FileText(lead, list);
    var pos: nat := 0;
    ghost var before := lead;
    ok, starts, taken := true, [], 0;
    assert list[0..] == list && text[0..] == text;
    while pos < |text|
      invariant pos <= |text| && taken <= |list| && text[pos..] == FileText(before, list[taken..])
      invariant starts == [] <==> pos == 0
      invariant starts != [] ==> starts[0] == 0 && starts[|starts| - 1] < pos
      invariant forall i :: 0 <= i < |starts| ==> starts[i] < |text| && !CutsPrefix(text, starts[i])
      invariant forall i :: 0 < i < |starts| ==> starts[i - 1] < starts[i]
      invariant pos == 0 ==> taken == 0 && table.bits == old(table.bits)
      invariant pos > 0 ==> table.bits == Union(list[..taken])
      decreases |text| - pos
    {
      var c: char := *;
      SuffixGood(list, taken, table.length);
      ghost var j, before' := OneCall(before, list[taken..], c, table.length);
      var n: nat;
      ok, n := table.Write(text[pos..], pos, c, true);
      starts := starts + [pos];
      if !ok {
        ghost var x := CutsAtX(text, pos);
        assert CutsPrefix(text, starts[|starts| - 1]) && IsX(text[x]);
        return;
      }
      NextCall(text, pos, list, taken, j, before', Call(text[pos..], Page(text[pos..]), c, table.length, {}));
      taken, before, pos := taken + j, before', pos + n;
    }
    AtEnd(before, list[taken..]);
    assert list[..|list|] == list;
  }

  lemma AtEnd(lead: nat, list: seq<Entry>)
    requires FileText(lead, list) == []
    ensures list == []
  {
    NoText(list);
  }

  /** Where the next call goes on, and what has been set until then. */
  lemma NextCall(text: string, pos: nat, list: seq<Entry>, k: nat, j: nat, lead: nat, out: Outcome)
    requires k <= |list| && j <= |list[k..]| && pos <= |text| && out.Parsed?
    requires Leaves(list[k..], text[pos..], Page(text[pos..]), out, {}, j, lead)
    requires |FileText(lead, list[k..][j..])| < |text[pos..]|
    ensures var n := Page(text[pos..]) - out.left;
      && 0 < n <= |text| - pos && text[pos + n..] == FileText(lead, list[k + j..])
      && Union(list[..k]) + out.bits == Union(list[..k + j]) && (k == 0 ==> out.bits == Union(list[..k + j]))
  {
    hide FileText, Union;
    var n := Page(text[pos..]) - out.left;
    assert list[k..][j..] == list[k + j..] && list[..k] + list[k..][..j] == list[..k + j];
    DropTwice(text, pos, n);
    UnionAppend(list[..k], list[k..][..j]);
    assert {} + Union(list[k..][..j]) == Union(list[k..][..j]);
    assert k == 0 ==> list[..k] + list[k..][..j] == list[k..][..j];
  }

  lemma DropTwice(s: string, x: nat, y: int)
    requires 0 <= y && x + y <= |s|
    ensures s[x..][y..] == s[x + y..]
  {
  }

  lemma {:induction false} UnionAppend(a: seq<Entry>, b: seq<Entry>)
    ensures Union(a + b) == Union(a) + Union(b)
  {
    hide Item.Bits;
    if a == [] {
      assert a + b == b;
    } else {
      assert (a + b)[1..] == a[1..] + b;
      UnionAppend(a[1..], b);
    }
  }

  lemma SuffixGood(list: seq<Entry>, k: nat, length: nat)
    requires AllGood(list, length) && k <= |list|
    ensures AllGood(list[k..], length)
  {
  }

  /** However long the printed text is, written in as many calls as it needs it makes a bitmap of the same
      length, which may be the same one, what the first was. */
  method RoundTripLong(from: Table, to: Table, size: nat) returns (text: string)
    requires 0 < from.length == to.length <= ULONG_MAX && forall x :: x in from.bits ==> x < from.length
    requires |Printed(from.bits, from.length)| <= size
    modifies to
    ensures to.bits == old(from.bits)
  {
    hide Runs, ListText, Union, AllGood, Newlines;
    ghost var bits := from.bits;
    text := from.Read(size, 0);
    var runs := Runs(from.bits, from.length, 0);
    var lead := if runs == [] then 1 else 0;
    RunsCover(bits, from.length, 0);
    PrintedHasNoX(bits, from.length);
    NewlinesAre(lead);
    NoText(runs);
    assert text == FileText(lead, runs);
    var ok, starts, taken := WriteLongText(to, lead, runs);
    assert runs[..|runs|] == runs;
    assert (set x | x in bits && 0 <= x < from.length) == bits;
  }

  predicate HasNoX(s: string) { forall i :: 0 <= i < |s| ==> !IsX(s[i]) }

  lemma NoXAppend(a: string, b: string)
    requires HasNoX(a) && HasNoX(b)
    ensures HasNoX(a + b)
  {
  }

  lemma RunHasNoX(a: nat, b: nat)
    ensures HasNoX(Run(a, b).Text())
  {
    hide Decimal;
    NoXAppend(Decimal(a), "-");
    NoXAppend(Decimal(a) + "-", Decimal(b));
  }

  lemma NewlinesHaveNoX(m: nat)
    ensures HasNoX(Newlines(m))
  {
    NewlinesAre(m);
  }

  lemma PrintedHasNoX(bits: set<nat>, length: nat)
    ensures HasNoX(Printed(bits, length))
  {
    hide Runs, ListText, HasNoX, Newlines;
    var runs := Runs(bits, length, 0);
    var lead := if runs == [] then 1 else 0;
    NewlinesHaveNoX(lead);
    RunsHaveNoX(bits, length, 0);
    NoXAppend(Newlines(lead), ListText(runs));
  }

  lemma {:induction false} RunsHaveNoX(bits: set<nat>, length: nat, from: nat)
    requires from <= length
    ensures HasNoX(ListText(Runs(bits, length, from)))
    decreases length - from
  {
    hide NextBit, NextZeroBit, HasNoX, Newlines, Run, Item.Text, ListText;
    var runs := Runs(bits, length, from);
    if runs == [] {
      NewlinesHaveNoX(0);
      NewlinesAre(0);
      NoText(runs);
      assert ListText(runs) == Newlines(0);
    } else {
      var a := NextBit(bits, length, from);
      var b := NextZeroBit(bits, length, a + 1) - 1;
      assert runs[1..] == Runs(bits, length, b + 1);
      FirstText(runs);
      RunHasNoX(a, b);
      SeparatorHasNoX(runs[0].sep);
      NewlinesHaveNoX(0);
      RunsHaveNoX(bits, length, b + 1);
      NoXAppend(Newlines(0), ListText(runs[1..]));
      NoXAppend(Run(a, b).Text(), [runs[0].sep]);
      NoXAppend(Run(a, b).Text() + [runs[0].sep], FileText(0, runs[1..]));
    }
  }

  lemma SeparatorHasNoX(c: char)
    requires c == ',' || c == '\n'
    ensures HasNoX([c])
  {
  }
}
