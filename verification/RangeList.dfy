/** The text that proc_do_large_bitmap parses: a list of bits and ranges, in one call or in as many as a text
    longer than a page needs, and exactly when a page edge makes a call fail. */
module RangeList {
  import opened Digits
  import opened Wrappers

  const PAGE_SIZE: nat := 4096
  const TRAILERS_A: seq<char> := ['-', ',', '\n']
  const TRAILERS_B: seq<char> := [',', '\n', '\0']

  // ---- One call, as functions of its input ----

  datatype ItemResult = Again | Bad | Got(a: nat, b: nat, used: nat, c: char)

  /** One number or range at the start of text. cut says that the text goes on after this call's page; Again
      puts the item back for the next call. c is the last trailer seen. */
  function ParseItem(text: string, cut: bool, c: char, length: nat): (r: ItemResult)
    ensures r.Got? ==> 0 < r.used <= |text| && r.a <= r.b < length
  {
    match GetLong(text, TRAILERS_A)
    case None => Bad
    case Some(first) =>
      var left := |text| - first.used;
      if left <= 1 && cut then Again
      else if first.value >= length || first.neg then Bad
      else
        var rest := if left > 0 then text[first.used + 1..] else [];
        var c := if left > 0 then first.trailer.value else c;
        if c != '-' then Got(first.value, first.value, |text| - |rest|, c)
        else
          match GetLong(rest, TRAILERS_B)
          case None => Bad
          case Some(second) =>
            var left := |rest| - second.used;
            if left == 0 && cut then Again
            else if second.value >= length || second.neg || first.value > second.value then Bad
            else
              Got(first.value, second.value, |text| - (if left > 0 then left - 1 else 0),
                  if left > 0 then second.trailer.value else c)
  }

  function SkipNewlines(s: string): (r: string)
    ensures |r| <= |s|
  {
    if s != [] && s[0] == '\n' then SkipNewlines(s[1..]) else s
  }

  function Span(a: nat, b: nat): set<nat> { set x: nat {:trigger Within(a, x, b)} | x <= b && Within(a, x, b) }

  predicate Within(a: nat, x: nat, b: nat) { a <= x <= b }

  /** The loop of one call: the bits it collects and how many characters it leaves. */
  datatype Outcome = Failed | Parsed(bits: set<nat>, left: nat)

  function ParseAll(text: string, cut: bool, c: char, length: nat, bits: set<nat>): Outcome
    decreases |text|
  {
    if text == [] then Outcome.Parsed(bits, 0)
    else
      match ParseItem(text, cut, c, length)
      case Bad => Failed
      case Again => Outcome.Parsed(bits, |text|)
      case Got(a, b, used, c') => ParseAll(SkipNewlines(text[used..]), cut, c', length, bits + Span(a, b))
  }

  // ---- Well-formed texts ----

  /** A bit or a range of bits, its numbers in any spelling. */
  datatype Item = One(a: string) | Range(a: string, b: string) {
    function First(): nat { NumberValue(a) }
    function Last(): nat { if One? then NumberValue(a) else NumberValue(b) }
    function Bits(): set<nat> { Span(First(), Last()) }
    predicate Good(length: nat) { IsNumber(a) && (Range? ==> IsNumber(b)) && First() <= Last() < length }
    function Text(): string { if One? then a else a + "-" + b }
  }

  function Newlines(m: nat): string {
    if m == 0 then [] else ['\n'] + Newlines(m - 1)
  }

  /** An item, the comma or newline that ends it, and the blank lines after it. */
  datatype Entry = Entry(item: Item, sep: char, gap: nat) {
    predicate Good(length: nat) { item.Good(length) && (sep == ',' || sep == '\n') }
    function Text(): string { item.Text() + [sep] + Newlines(gap) }
  }

  function ListText(list: seq<Entry>): string {
    if list == [] then [] else list[0].Text() + ListText(list[1..])
  }

  /** A list with blank lines before it. */
  function FileText(lead: nat, list: seq<Entry>): string { Newlines(lead) + ListText(list) }

  function Union(list: seq<Entry>): set<nat> {
    if list == [] then {} else list[0].item.Bits() + Union(list[1..])
  }

  ghost predicate AllGood(list: seq<Entry>, length: nat) {
    length <= ULONG_MAX && forall i :: 0 <= i < |list| ==> list[i].Good(length)
  }

  // ---- One item ----

  predicate EndsInX(s: string) { s != [] && IsX(s[|s| - 1]) }

  /** The cut leaves a number that is just 0x or 0X. */
  predicate LeavesPrefix(it: Item, k: nat)
    requires k <= |it.Text()|
  {
    IsPrefix(if k <= |it.a| || it.One? then it.Text()[..k] else it.Text()[..k][|it.a| + 1..])
  }

  predicate IsPrefix(t: string) { |t| == 2 && t[0] == '0' && IsX(t[1]) }

  /** A caller sees such a cut from the last character before it. */
  lemma PrefixShows(it: Item, k: nat, length: nat)
    requires it.Good(length) && k <= |it.Text()|
    ensures LeavesPrefix(it, k) <==> EndsInX(it.Text()[..k])
  {
    hide IsNumber, NumberValue;
    if k > 0 {
      var text := it.Text()[..k];
      if k <= |it.a| {
        assert text[k - 1] == it.a[k - 1];
        XIsSecond(it.a, k - 1);
      } else if it.Range? && k > |it.a| + 1 {
        var j := k - |it.a| - 1;
        assert text[k - 1] == it.b[j - 1] && text[|it.a| + 1..] == it.b[..j];
        XIsSecond(it.b, j - 1);
      }
    }
  }

  /** An item with its separator and, if the text is cut, at least one character more is read as it stands. */
  lemma ItemWhole(it: Item, sep: char, tail: string, cut: bool, c: char, length: nat)
    requires it.Good(length) && (sep == ',' || sep == '\n') && (cut ==> tail != [])
    ensures ParseItem(it.Text() + [sep] + tail, cut, c, length) == Got(it.First(), it.Last(), |it.Text()| + 1, sep)
  {
    hide ParseItem, IsNumber, NumberValue;
    var rest := [sep] + tail;
    if it.One? {
      assert it.Text() + [sep] + tail == it.a + rest;
      OneParsed(it.a, rest, cut, c, length);
    } else {
      assert it.Text() + [sep] + tail == it.a + (['-'] + (it.b + rest));
      RangeParsed(it.a, it.b, rest, cut, c, length);
    }
  }

  lemma GetUnsigned(t: string, rest: string, trailers: seq<char>)
    requires IsNumber(t) && (rest != [] ==> rest[0] in trailers && rest[0] in ['-', ',', '\n'])
    ensures GetLong(t + rest, trailers)
      == Some(Digits.Parsed(NumberValue(t), false, |t|, if rest == [] then None else Some(rest[0])))
  {
    hide GetLong, IsNumber, NumberValue;
    assert "" + t == t;
    GetSpelled(t, false, rest, trailers);
  }

  lemma OneParsed(a: string, rest: string, cut: bool, c: char, length: nat)
    requires IsNumber(a) && NumberValue(a) < length && (cut ==> |rest| > 1)
    requires rest != [] && (rest[0] == ',' || rest[0] == '\n')
    ensures ParseItem(a + rest, cut, c, length) == Got(NumberValue(a), NumberValue(a), |a| + 1, rest[0])
  {
    hide GetLong, IsNumber, NumberValue;
    GetUnsigned(a, rest, TRAILERS_A);
  }

  lemma RangeParsed(a: string, b: string, rest: string, cut: bool, c: char, length: nat)
    requires IsNumber(a) && IsNumber(b) && NumberValue(a) <= NumberValue(b) < length
    requires rest != [] && (rest[0] == ',' || rest[0] == '\n')
    ensures ParseItem(a + (['-'] + (b + rest)), cut, c, length)
      == Got(NumberValue(a), NumberValue(b), |a| + 1 + |b| + 1, rest[0])
  {
    hide GetLong, IsNumber, NumberValue;
    var after := b + rest;
    GetUnsigned(a, ['-'] + after, TRAILERS_A);
    assert (a + (['-'] + after))[|a| + 1..] == after;
    GetUnsigned(b, rest, TRAILERS_B);
  }

  /** At a page edge right after its separator a bit is put back and a range is read. */
  lemma ItemThenSeparator(it: Item, sep: char, c: char, length: nat)
    requires it.Good(length) && (sep == ',' || sep == '\n')
    ensures ParseItem(it.Text() + [sep], true, c, length)
      == if it.One? then Again else Got(it.First(), it.Last(), |it.Text()| + 1, sep)
  {
    hide IsNumber, NumberValue, GetLong;
    if it.One? {
      GetUnsigned(it.a, [sep], TRAILERS_A);
    } else {
      assert it.Text() + [sep] == it.a + (['-'] + (it.b + [sep]));
      hide ParseItem;
      RangeParsed(it.a, it.b, [sep], true, c, length);
    }
  }

  /** A bit at the very end of the input, with no separator, depends on the trailer seen before it, which the
      source leaves unset in its first turn: after a dash the call fails, otherwise the bit is read. */
  lemma WithoutSeparator(a: string, c: char, length: nat)
    requires IsNumber(a) && NumberValue(a) < length
    ensures ParseItem(a, false, c, length) == if c == '-' then Bad else Got(NumberValue(a), NumberValue(a), |a|, c)
  {
    hide IsNumber, NumberValue;
    assert a + [] == a;
    GetUnsigned(a, [], TRAILERS_A);
  }

  /** A bit outside the bitmap, a range that ends before it begins or outside, and any signed number make the
      call fail. */
  lemma ItemRefused(it: Item, rest: string, c: char, length: nat)
    requires IsNumber(it.a) && (it.Range? ==> IsNumber(it.b)) && !(it.First() <= it.Last() < length)
    requires rest != [] && (rest[0] == ',' || rest[0] == '\n')
    ensures ParseItem(it.Text() + rest, false, c, length) == Bad
  {
    hide GetLong, IsNumber, NumberValue;
    if it.One? {
      GetUnsigned(it.a, rest, TRAILERS_A);
    } else {
      var after := it.b + rest;
      assert it.Text() + rest == it.a + (['-'] + after);
      GetUnsigned(it.a, ['-'] + after, TRAILERS_A);
      assert (it.a + (['-'] + after))[|it.a| + 1..] == after;
      GetUnsigned(it.b, rest, TRAILERS_B);
    }
  }

  lemma SignRefused(text: string, c: char, length: nat)
    requires text != [] && text[0] == '-'
    ensures !ParseItem(text, false, c, length).Got?
  {
    if GetLong(text, TRAILERS_A).Some? {
      GetLongSound(text, TRAILERS_A);
    }
    hide GetLong;
  }

  /** At a page edge anywhere inside it an item is put back, unless the edge leaves just 0x or 0X of one of
      its numbers; then, and only then, the call fails. */
  lemma ItemCut(it: Item, k: nat, c: char, length: nat)
    requires it.Good(length) && 0 < k <= |it.Text()|
    ensures ParseItem(it.Text()[..k], true, c, length) == if LeavesPrefix(it, k) then Bad else Again
  {
    hide ParseItem, IsNumber, NumberValue;
    var text := it.Text()[..k];
    if k <= |it.a| {
      assert text == it.a[..k];
      FirstCut(it.a, k, c, length);
    } else if k == |it.a| + 1 {
      assert text == it.a + ['-'];
      DashCut(it.a, c, length);
    } else {
      var j := k - |it.a| - 1;
      assert text == it.a + (['-'] + it.b[..j]) && text[|it.a| + 1..] == it.b[..j];
      SecondCut(it.a, it.b, j, c, length);
    }
  }

  /** Reading what a cut leaves of a number. */
  lemma GetCut(t: string, k: nat, trailers: seq<char>)
    requires IsNumber(t) && 0 < k <= |t| && 'x' !in trailers && 'X' !in trailers
    ensures IsPrefix(t[..k]) ==> GetLong(t[..k], trailers) == None
    ensures !IsPrefix(t[..k]) ==>
      GetLong(t[..k], trailers) == Some(Digits.Parsed(NumberValue(t[..k]), false, k, None))
  {
    hide GetLong, IsNumber, NumberValue;
    if IsPrefix(t[..k]) {
      assert t[..k] == ['0', t[1]];
      GetCutPrefix(t[1], trailers);
    } else {
      if k == 2 {
        XIsSecond(t, 1);
      }
      PrefixIsNumber(t, k);
      assert t[..k] + [] == t[..k];
      GetUnsigned(t[..k], [], trailers);
    }
  }

  lemma FirstCut(a: string, k: nat, c: char, length: nat)
    requires IsNumber(a) && 0 < k <= |a|
    ensures ParseItem(a[..k], true, c, length) == if IsPrefix(a[..k]) then Bad else Again
  {
    hide GetLong, IsNumber, NumberValue;
    GetCut(a, k, TRAILERS_A);
  }

  lemma DashCut(a: string, c: char, length: nat)
    requires IsNumber(a)
    ensures ParseItem(a + ['-'], true, c, length) == Again
  {
    hide GetLong, IsNumber, NumberValue;
    GetUnsigned(a, ['-'], TRAILERS_A);
  }

  lemma SecondCut(a: string, b: string, j: nat, c: char, length: nat)
    requires IsNumber(a) && IsNumber(b) && NumberValue(a) < length && 0 < j <= |b|
    ensures ParseItem(a + (['-'] + b[..j]), true, c, length) == if IsPrefix(b[..j]) then Bad else Again
  {
    hide GetLong, IsNumber, NumberValue;
    GetUnsigned(a, ['-'] + b[..j], TRAILERS_A);
    assert (a + (['-'] + b[..j]))[|a| + 1..] == b[..j];
    GetCut(b, j, TRAILERS_B);
  }

  // ---- One call on a list ----

  lemma {:induction false} NewlinesAre(m: nat)
    ensures |Newlines(m)| == m && forall i :: 0 <= i < m ==> Newlines(m)[i] == '\n'
  {
    if m > 0 {
      NewlinesAre(m - 1);
    }
  }

  lemma {:induction false} SkipsThem(m: nat, s: string)
    requires s == [] || s[0] != '\n'
    ensures SkipNewlines(Newlines(m) + s) == s
  {
    if m == 0 {
      assert Newlines(0) + s == s;
    } else {
      assert (Newlines(m) + s)[1..] == Newlines(m - 1) + s;
      SkipsThem(m - 1, s);
    }
  }

  /** Blank lines that the page edge cuts. */
  lemma FewerNewlines(m: nat, n: nat, s: string)
    requires n <= m
    ensures |Newlines(m) + s| == m + |s|
    ensures (Newlines(m) + s)[..n] == Newlines(n) && (Newlines(m) + s)[n..] == Newlines(m - n) + s
  {
    NewlinesAre(m);
    NewlinesAre(n);
    NewlinesAre(m - n);
  }

  lemma ItemLength(it: Item, length: nat)
    requires it.Good(length)
    ensures 0 < |it.Text()| <= 41 && it.Text()[0] != '\n'
  {
    StartsWithDigit(it.a);
    if it.Range? {
      StartsWithDigit(it.b);
    }
  }

  /** What a call makes of the first n characters of a text. */
  function Call(text: string, n: nat, c: char, length: nat, bits: set<nat>): Outcome
    requires n <= |text|
  {
    ParseAll(SkipNewlines(text[..n]), n < |text|, c, length, bits)
  }

  /** How a call ends that leaves lead blank lines and the entries from number k on. */
  ghost predicate Leaves(list0: seq<Entry>, text: string, n: nat, out: Outcome, bits: set<nat>, k: nat, lead: nat)
    requires k <= |list0| && n <= |text|
  {
    var rest := FileText(lead, list0[k..]);
    && |text| - n <= |rest| <= |text| && text[|text| - |rest|..] == rest
    && out == Outcome.Parsed(bits + Union(list0[..k]), |rest| - (|text| - n))
  }

  /** One call on the first n characters of a well-formed text. It fails if and only if these end in x, which
      is right after the 0x of a hexadecimal number; otherwise it takes some of the first entries exactly, all
      of them if nothing is cut, and something if there is room for an item. */
  lemma {:induction false} ParseList(lead: nat, list: seq<Entry>, n: nat, c: char, length: nat, bits: set<nat>)
    returns (k: nat, lead': nat)
    requires AllGood(list, length) && n <= |FileText(lead, list)|
    ensures var text := FileText(lead, list);
      var out := Call(text, n, c, length, bits);
      && k <= |list|
      && (if EndsInX(text[..n]) then n < |text| && out == Failed else Leaves(list, text, n, out, bits, k, lead'))
      && (n == |text| ==> k == |list| && lead' == 0)
      && (!EndsInX(text[..n]) && text != [] && (n >= 43 || n == |text|) ==> |FileText(lead', list[k..])| < |text|)
    decreases |list|
  {
    hide ParseAll, ListText, Union, Item.Bits, Item.Text, Item.Good, Leaves, EndsInX, SkipNewlines, Newlines;
    NoText(list);
    if n <= lead {
      OnlyNewlines(lead, list, n, c, length, bits);
      return 0, lead - n;
    }
    StartsWithItem(list, length);
    PastNewlines(lead, list, n);
    var m := n - lead;
    var got := FirstTurn(list, m, c, length, bits);
    if got {
      var e, rest := list[0], list[1..];
      FirstText(list);
      k, lead' := ParseList(e.gap, rest, m - |e.item.Text()| - 1, e.sep, length, bits + e.item.Bits());
      if !EndsInX(FileText(lead, list)[..n]) {
        OneMore(lead, list, n, Call(FileText(lead, list), n, c, length, bits), bits, k, lead');
      }
      k := k + 1;
    } else {
      k, lead' := 0, 0;
      if !EndsInX(FileText(lead, list)[..n]) {
        PutBack(lead, list, n, bits);
      }
    }
  }

  lemma NoText(list: seq<Entry>)
    ensures ListText(list) == [] <==> list == []
  {
  }

  /** Where the blank lines before a list end. */
  lemma PastNewlines(lead: nat, list: seq<Entry>, n: nat)
    requires lead < n <= |FileText(lead, list)| && (ListText(list) != [] ==> ListText(list)[0] != '\n')
    ensures |FileText(lead, list)| == lead + |ListText(list)|
    ensures SkipNewlines(FileText(lead, list)[..n]) == ListText(list)[..n - lead]
    ensures EndsInX(FileText(lead, list)[..n]) <==> EndsInX(ListText(list)[..n - lead])
  {
    hide ListText;
    NewlinesAre(lead);
    var s := ListText(list)[..n - lead];
    assert FileText(lead, list)[..n] == Newlines(lead) + s;
    SkipsThem(lead, s);
  }

  lemma OnlyNewlines(lead: nat, list: seq<Entry>, n: nat, c: char, length: nat, bits: set<nat>)
    requires n <= lead
    ensures var text := FileText(lead, list);
      && n <= |text| == lead + |ListText(list)| && !EndsInX(text[..n])
      && |FileText(lead - n, list[0..])| == |text| - n
      && Leaves(list, text, n, Call(text, n, c, length, bits), bits, 0, lead - n)
  {
    hide ListText;
    var text := FileText(lead, list);
    FewerNewlines(lead, n, ListText(list));
    FewerNewlines(lead - n, 0, ListText(list));
    NewlinesAre(n);
    assert Newlines(n) + [] == Newlines(n);
    SkipsThem(n, []);
    assert list[0..] == list && list[..0] == [] && bits + {} == bits;
  }

  lemma StartsWithItem(list: seq<Entry>, length: nat)
    requires AllGood(list, length)
    ensures ListText(list) != [] ==> ListText(list)[0] != '\n'
  {
    if list != [] {
      ItemLength(list[0].item, length);
    }
  }

  /** The text of a list is its first item, the separator, and the rest with blank lines before it. */
  lemma FirstText(list: seq<Entry>)
    requires list != []
    ensures var t, rest := list[0].item.Text(), FileText(list[0].gap, list[1..]);
      ListText(list) == t + [list[0].sep] + rest && |ListText(list)| == |t| + 1 + |rest|
  {
    hide Item.Text, Newlines;
    var e := list[0];
    assert (e.item.Text() + [e.sep] + Newlines(e.gap)) + ListText(list[1..])
        == e.item.Text() + [e.sep] + (Newlines(e.gap) + ListText(list[1..]));
  }

  /** The first turn of the loop: the first item is taken whole, or the page edge is in it and it is put back
      or makes the call fail. */
  lemma FirstTurn(list: seq<Entry>, m: nat, c: char, length: nat, bits: set<nat>) returns (got: bool)
    requires AllGood(list, length) && list != [] && 0 < m <= |ListText(list)|
    ensures var e, s, cut := list[0], ListText(list)[..m], m < |ListText(list)|;
      var t, rest := e.item.Text(), FileText(e.gap, list[1..]);
      if got then
        && |t| + 1 <= m <= |t| + 1 + |rest|
        && ParseAll(s, cut, c, length, bits) == Call(rest, m - |t| - 1, e.sep, length, bits + e.item.Bits())
        && (EndsInX(s) <==> EndsInX(rest[..m - |t| - 1]))
      else
        cut && m <= 42 && ParseAll(s, cut, c, length, bits) == if EndsInX(s) then Failed else Outcome.Parsed(bits, m)
  {
    hide ListText, Item.Text, Item.Good, Newlines, SkipNewlines, ParseItem, LeavesPrefix, FileText;
    var e := list[0];
    assert e.Good(length);
    var t, rest := e.item.Text(), FileText(e.gap, list[1..]);
    FirstText(list);
    ItemLength(e.item, length);
    var s, cut := ListText(list)[..m], m < |ListText(list)|;
    if m <= |t| {
      assert s == t[..m];
      ItemCut(e.item, m, c, length);
      PrefixShows(e.item, m, length);
      return false;
    }
    var tail := rest[..m - |t| - 1];
    assert s == t + [e.sep] + tail;
    if tail == [] && cut {
      assert s == t + [e.sep];
      ItemThenSeparator(e.item, e.sep, c, length);
      if e.item.One? {
        return false;
      }
    } else {
      ItemWhole(e.item, e.sep, tail, cut, c, length);
    }
    assert s[|t| + 1..] == tail;
    got := true;
  }

  /** An item put back leaves the list as it was. */
  lemma PutBack(lead: nat, list: seq<Entry>, n: nat, bits: set<nat>)
    requires lead < n <= |FileText(lead, list)|
    ensures |FileText(0, list[0..])| == |FileText(lead, list)| - lead
    ensures Leaves(list, FileText(lead, list), n, Outcome.Parsed(bits, n - lead), bits, 0, 0)
  {
    hide ListText;
    NewlinesAre(lead);
    assert list[0..] == list && list[..0] == [] && bits + {} == bits;
    assert FileText(0, list) == ListText(list) == FileText(lead, list)[lead..];
  }

  /** What a call leaves of the rest it leaves of the whole. */
  lemma OneMore(lead: nat, list: seq<Entry>, n: nat, out: Outcome, bits: set<nat>, j: nat, lead': nat)
    requires list != [] && j < |list|
    requires var head := lead + |list[0].item.Text()| + 1;
      && head <= n <= |FileText(lead, list)| && n - head <= |FileText(list[0].gap, list[1..])|
      && Leaves(list[1..], FileText(list[0].gap, list[1..]), n - head, out, bits + list[0].item.Bits(), j, lead')
    ensures |FileText(lead', list[j + 1..])| < |FileText(lead, list)|
    ensures Leaves(list, FileText(lead, list), n, out, bits, j + 1, lead')
  {
    hide ListText, Item.Bits, Item.Text;
    var text, rest := FileText(lead, list), FileText(list[0].gap, list[1..]);
    var head := lead + |list[0].item.Text()| + 1;
    FirstText(list);
    NewlinesAre(lead);
    assert list[1..][j..] == list[j + 1..] && list[..j + 1][1..] == list[1..][..j];
    assert text[head..] == rest;
    var left := FileText(lead', list[j + 1..]);
    assert text[head..][|rest| - |left|..] == text[head + (|rest| - |left|)..];
    assert bits + list[0].item.Bits() + Union(list[1..][..j]) == bits + Union(list[..j + 1]);
  }

  /** The two characters before position n are 0x or 0X at the start of a number. */
  predicate PrefixBefore(text: string, n: nat)
    requires n <= |text|
  {
    n >= 2 && IsPrefix(text[n - 2..n]) && (n == 2 || text[n - 3] in TRAILERS_A)
  }

  /** In a well-formed text x stands nowhere else, so the last character is enough to see it. */
  lemma {:induction false} XMeansPrefix(lead: nat, list: seq<Entry>, n: nat, length: nat)
    requires AllGood(list, length) && n <= |FileText(lead, list)|
    ensures EndsInX(FileText(lead, list)[..n]) <==> PrefixBefore(FileText(lead, list), n)
    decreases |list|
  {
    hide ListText, Item.Good, Newlines, Item.Text, EndsInX, PrefixBefore;
    NewlinesAre(lead);
    NoText(list);
    PrefixEndsInX(FileText(lead, list), n);
    if n <= lead {
      NoX(FileText(lead, list), n);
    } else {
      FirstText(list);
      var e := list[0];
      assert e.Good(length);
      var t, rest := e.item.Text(), FileText(e.gap, list[1..]);
      var m := n - lead;
      if m <= |t| {
        PrefixInItem(e.item, m, length);
        Lengthened(t, [e.sep] + rest, m);
        assert t + ([e.sep] + rest) == ListText(list);
      } else if m == |t| + 1 {
        NoX(ListText(list), m);
      } else {
        var m' := m - |t| - 1;
        XMeansPrefix(e.gap, list[1..], m', length);
        Shifted(t + [e.sep], rest, m');
      }
      Shifted(Newlines(lead), ListText(list), m);
    }
  }

  lemma PrefixEndsInX(text: string, n: nat)
    requires n <= |text|
    ensures PrefixBefore(text, n) ==> EndsInX(text[..n])
  {
    assert n >= 2 ==> text[n - 2..n][1] == text[..n][n - 1];
  }

  lemma NoX(text: string, n: nat)
    requires n <= |text| && (n > 0 ==> text[n - 1] == ',' || text[n - 1] == '\n')
    ensures !EndsInX(text[..n])
  {
  }

  lemma Lengthened(s: string, more: string, m: nat)
    requires m <= |s|
    ensures EndsInX((s + more)[..m]) <==> EndsInX(s[..m])
    ensures PrefixBefore(s, m) ==> PrefixBefore(s + more, m)
  {
    assert (s + more)[..m] == s[..m];
    assert m >= 2 ==> (s + more)[m - 2..m] == s[m - 2..m];
  }

  lemma Shifted(pre: string, s: string, m: nat)
    requires 0 < m <= |s| && (pre != [] ==> pre[|pre| - 1] in TRAILERS_A)
    ensures EndsInX((pre + s)[..|pre| + m]) <==> EndsInX(s[..m])
    ensures PrefixBefore(s, m) ==> PrefixBefore(pre + s, |pre| + m)
  {
    assert m >= 2 ==> (pre + s)[|pre| + m - 2..|pre| + m] == s[m - 2..m];
  }

  lemma PrefixInItem(it: Item, k: nat, length: nat)
    requires it.Good(length) && 0 < k <= |it.Text()|
    ensures EndsInX(it.Text()[..k]) ==> PrefixBefore(it.Text(), k)
  {
    hide IsNumber, NumberValue;
    PrefixShows(it, k, length);
  }
}
