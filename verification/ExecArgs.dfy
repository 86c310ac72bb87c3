/** The argument stack of a new program: copy_strings and copy_string_kernel write it downwards page by
    page, remove_arg_zero drops its first string, and bprm_stack_limits bounds it. */
module ExecArgs {
  type Byte = b: int | 0 <= b < 256
  type Pages = map<nat, seq<Byte>>

  const PAGE_SIZE: nat := 4096
  const MAX_ARG_STRLEN: nat := 131072
  const MAX_ARG_STRINGS: nat := 0x7FFF_FFFF
  const ARG_MAX: nat := 131072
  const STK_LIM: nat := 8388608
  const POINTER_SIZE: nat := 8
  const WORD: nat := 0x1_0000_0000_0000_0000

  datatype Errno = E2BIG | EFAULT | ERESTARTNOHAND

  datatype Status = Ok | Err(errno: Errno)

  // ---- Flat memory ----

  ghost predicate GoodPages(pages: Pages) {
    forall k :: k in pages ==> |pages[k]| == PAGE_SIZE
  }

  /** The byte at an address; a page that is not there yet will be zero-filled. */
  ghost function At(pages: Pages, a: nat): Byte
    requires GoodPages(pages)
  {
    if a / PAGE_SIZE in pages then pages[a / PAGE_SIZE][a % PAGE_SIZE] else 0
  }

  /** The text lies in memory from address p on. */
  ghost predicate Holds(pages: Pages, p: nat, text: seq<Byte>)
    requires GoodPages(pages)
  {
    forall i :: 0 <= i < |text| ==> At(pages, p + i) == text[i]
  }

  /** Outside lo..hi nothing has changed. */
  ghost predicate SameOutside(before: Pages, after: Pages, lo: nat, hi: nat)
    requires GoodPages(before) && GoodPages(after)
  {
    forall a: nat :: a < lo || hi <= a ==> At(after, a) == At(before, a)
  }

  /** get_arg_page: a missing page comes into being zero-filled. */
  function Mapped(pages: Pages, k: nat): (r: Pages)
    requires forall j :: j in pages ==> |pages[j]| == PAGE_SIZE
    ensures k in r && forall j :: j in r ==> |r[j]| == PAGE_SIZE
  {
    if k in pages then pages else pages[k := seq(PAGE_SIZE, _ => 0)]
  }

  /** memcpy(kaddr + offset, chunk) into a mapped page. */
  function Write(pages: Pages, k: nat, offset: nat, chunk: seq<Byte>): (r: Pages)
    requires k in pages && |pages[k]| == PAGE_SIZE && offset + |chunk| <= PAGE_SIZE
  {
    pages[k := pages[k][..offset] + chunk + pages[k][offset + |chunk|..]]
  }

  lemma WriteInPlace(pages: Pages, pos: nat, chunk: seq<Byte>)
    requires GoodPages(pages) && pos / PAGE_SIZE in pages && pos % PAGE_SIZE + |chunk| <= PAGE_SIZE
    ensures |pages[pos / PAGE_SIZE]| == PAGE_SIZE
    ensures var after := Write(pages, pos / PAGE_SIZE, pos % PAGE_SIZE, chunk);
      GoodPages(after) && Holds(after, pos, chunk) && SameOutside(pages, after, pos, pos + |chunk|)
  {
    var k, off := pos / PAGE_SIZE, pos % PAGE_SIZE;
    var after := Write(pages, k, off, chunk);
    forall i | 0 <= i < |chunk|
      ensures At(after, pos + i) == chunk[i]
    {
      InPage(pos, i);
    }
    forall a: nat | a < pos || pos + |chunk| <= a
      ensures At(after, a) == At(pages, a)
    {
      if a / PAGE_SIZE == k {
        assert a == k * PAGE_SIZE + a % PAGE_SIZE && pos == k * PAGE_SIZE + off;
      }
    }
  }

  lemma InPage(pos: nat, i: nat)
    requires pos % PAGE_SIZE + i < PAGE_SIZE
    ensures (pos + i) / PAGE_SIZE == pos / PAGE_SIZE && (pos + i) % PAGE_SIZE == pos % PAGE_SIZE + i
  {
  }

  /** Going back from pos by at most its offset stays in one page. */
  lemma BackInPage(pos: nat, offset: nat, n: nat)
    requires offset == (if pos % PAGE_SIZE == 0 then PAGE_SIZE else pos % PAGE_SIZE) && 0 < n <= offset && n <= pos
    ensures (pos - n) % PAGE_SIZE == offset - n
  {
    if pos % PAGE_SIZE == 0 {
      assert pos == (pos / PAGE_SIZE - 1) * PAGE_SIZE + PAGE_SIZE;
    } else {
      assert pos == (pos / PAGE_SIZE) * PAGE_SIZE + offset;
    }
  }

  lemma MappedSame(pages: Pages, k: nat)
    requires GoodPages(pages)
    ensures GoodPages(Mapped(pages, k)) && SameOutside(pages, Mapped(pages, k), 0, 0)
  {
  }

  lemma SameTransitive(a: Pages, b: Pages, c: Pages, lo: nat, mid: nat, hi: nat)
    requires GoodPages(a) && GoodPages(b) && GoodPages(c)
    requires lo <= mid <= hi && SameOutside(a, b, mid, hi) && SameOutside(b, c, lo, mid)
    ensures SameOutside(a, c, lo, hi)
  {
  }

  lemma SameAnywhere(a: Pages, b: Pages, c: Pages, lo: nat, hi: nat)
    requires GoodPages(a) && GoodPages(b) && GoodPages(c)
    requires SameOutside(a, b, 0, 0) && SameOutside(b, c, lo, hi)
    ensures SameOutside(a, c, lo, hi)
  {
  }

  lemma SameWidens(a: Pages, b: Pages, lo: nat, mid: nat, hi: nat)
    requires GoodPages(a) && GoodPages(b) && lo <= mid <= hi && SameOutside(a, b, mid, hi)
    ensures SameOutside(a, b, lo, hi)
  {
  }

  lemma NothingYet(pages: Pages, p: nat)
    requires GoodPages(pages)
    ensures Holds(pages, p, []) && SameOutside(pages, pages, p, p) && SameOutside(pages, pages, 0, 0)
  {
  }

  // ---- Strings ----

  /** A string with its terminating NUL. */
  function Terminated(s: seq<Byte>): seq<Byte> { s + [0] }

  /** argv[0] NUL argv[1] NUL ... */
  function Encoded(argv: seq<seq<Byte>>): seq<Byte> {
    if argv == [] then [] else Terminated(argv[0]) + Encoded(argv[1..])
  }

  lemma {:induction false} EncodedAppend(a: seq<seq<Byte>>, b: seq<seq<Byte>>)
    ensures Encoded(a + b) == Encoded(a) + Encoded(b)
  {
    if a == [] {
      assert a + b == b;
    } else {
      assert (a + b)[1..] == a[1..] + b;
      EncodedAppend(a[1..], b);
    }
  }

  /** No string is longer than the kernel takes. */
  ghost predicate Short(argv: seq<seq<Byte>>) { forall i :: 0 <= i < |argv| ==> |argv[i]| + 1 <= MAX_ARG_STRLEN }

  /** The strings from number k on take no more room than all. */
  lemma {:induction false} EncodedFrom(argv: seq<seq<Byte>>, k: nat)
    requires k < |argv|
    ensures |Encoded(argv[k..])| == |argv[k]| + 1 + |Encoded(argv[k + 1..])|
    ensures |Encoded(argv[k..])| <= |Encoded(argv)|
  {
    assert argv[k..][0] == argv[k] && argv[k..][1..] == argv[k + 1..];
    assert argv == argv[..k] + argv[k..];
    EncodedAppend(argv[..k], argv[k..]);
  }

  ghost predicate IsCString(s: seq<Byte>) { forall i :: 0 <= i < |s| ==> s[i] != 0 }

  /** The strings of a text, each up to its NUL. */
  function Strings(s: seq<Byte>): seq<seq<Byte>>
    decreases |s|
  {
    if s == [] then [] else [s[..StrLen(s)]] + Strings(s[if StrLen(s) < |s| then StrLen(s) + 1 else |s|..])
  }

  function StrLen(s: seq<Byte>): (n: nat)
    ensures n <= |s| && (n < |s| ==> s[n] == 0) && forall i :: 0 <= i < n ==> s[i] != 0
  {
    if s == [] || s[0] == 0 then 0 else 1 + StrLen(s[1..])
  }

  /** Read string by string, what is laid out is what was given. */
  lemma {:induction false} EncodedDecodes(argv: seq<seq<Byte>>)
    requires forall i :: 0 <= i < |argv| ==> IsCString(argv[i])
    ensures Strings(Encoded(argv)) == argv
  {
    if argv != [] {
      hide StrLen, Encoded;
      FirstOf(argv[0], Encoded(argv[1..]));
      assert Encoded(argv) == argv[0] + [0] + Encoded(argv[1..]) by { EncodedFirst(argv); }
      EncodedDecodes(argv[1..]);
    } else {
      EncodedNone();
    }
  }

  lemma OneString(a: seq<Byte>)
    ensures Encoded([a]) == Terminated(a) && (Short([a]) <==> |Terminated(a)| <= MAX_ARG_STRLEN)
  {
    assert [a][1..] == [];
  }

  lemma EncodedNone()
    ensures Encoded([]) == []
  {
  }

  lemma EncodedFirst(argv: seq<seq<Byte>>)
    requires argv != []
    ensures Encoded(argv) == argv[0] + [0] + Encoded(argv[1..])
  {
  }

  lemma FirstOf(a: seq<Byte>, rest: seq<Byte>)
    requires IsCString(a)
    ensures var s := a + [0] + rest;
      StrLen(s) == |a| && s[..|a|] == a && s[|a| + 1..] == rest
  {
    var s := a + [0] + rest;
    assert s[|a|] == 0 && forall i :: 0 <= i < |a| ==> s[i] == a[i];
  }

  lemma HoldsAppend(pages: Pages, p: nat, a: seq<Byte>, b: seq<Byte>)
    requires GoodPages(pages) && Holds(pages, p, a) && Holds(pages, p + |a|, b)
    ensures Holds(pages, p, a + b)
  {
    forall i | 0 <= i < |a + b|
      ensures At(pages, p + i) == (a + b)[i]
    {
      if i >= |a| {
        assert At(pages, p + |a| + (i - |a|)) == b[i - |a|];
      }
    }
  }

  /** The budget of bprm_stack_limits for strings and pointers together. */
  function Limit(stackLimit: nat): nat {
    var limit := STK_LIM / 4 * 3;
    var limit := if stackLimit / 4 < limit then stackLimit / 4 else limit;
    if limit < ARG_MAX then ARG_MAX else limit
  }

  /** The budget in numbers: a quarter of the stack limit, but no less than 128 KiB and no more than 6 MiB. */
  lemma LimitIs(r: nat)
    ensures 131072 <= Limit(r) <= 6291456
    ensures Limit(r) > 131072 ==> 4 * Limit(r) <= r
    ensures Limit(r) == 131072 || Limit(r) == 6291456 || r < 4 * Limit(r) + 4
    ensures r >= 25165824 ==> Limit(r) == 6291456
    ensures r < 524288 ==> Limit(r) == 131072
    ensures MAX_ARG_STRLEN == 131072 && POINTER_SIZE == 8
  {
  }

  class Bprm {
    var p: nat
    var argmin: nat
    var argc: nat
    var envc: nat
    var pages: Pages
    /** Nothing outside goes wrong: no fatal signal, no fault, no page refused. */
    const calm: bool

    /** Something outside may go wrong here. */
    method Trouble() returns (b: bool)
      ensures calm ==> !b
    {
      b := *;
      b := b && !calm;
    }

    ghost predicate Valid()
      reads this
    {
      GoodPages(pages) && p < WORD
    }

    /** Between strings: p has not gone below argmin, and argmin leaves room for one string more. */
    ghost predicate Roomy()
      reads this
    {
      Valid() && MAX_ARG_STRLEN <= argmin <= p
    }

    /** One chunk of the backward copy: at most up to the page edge below pos. */
    method CopyChunk(src: seq<Byte>, pos: nat, len: nat, kmapped: bool, kpage: nat)
      returns (status: Status, pos': nat, len': nat, kpage': nat)
      requires Valid() && 0 < len <= |src| && len <= pos && (kmapped ==> kpage in pages)
      modifies this`pages
      ensures Valid() && len' <= len && pos' + len == pos + len' && pos' <= pos
      ensures SameOutside(old(pages), pages, pos', pos)
      ensures status.Ok? ==> len' < len && Holds(pages, pos', src[len'..len]) && kpage' in pages
      ensures calm ==> status.Ok?
    {
      hide At, Holds, SameOutside, GoodPages;
      NothingYet(pages, pos);
      // a fatal signal may be pending
      var trouble := Trouble();
      if trouble {
        return Err(ERESTARTNOHAND), pos, len, kpage;
      }
      var offset := if pos % PAGE_SIZE == 0 then PAGE_SIZE else pos % PAGE_SIZE;
      var n := if offset > len then len else offset;
      BackInPage(pos, offset, n);
      offset, pos', len' := offset - n, pos - n, len - n;
      SameWidens(pages, pages, pos', pos, pos);
      kpage' := kpage;
      if !kmapped || kpage != pos' / PAGE_SIZE {
        // get_arg_page may fail
        var refused := Trouble();
        if refused {
          return Err(E2BIG), pos', len', kpage;
        }
        kpage' := pos' / PAGE_SIZE;
        MapPage(kpage');
        SameAnywhere(old(pages), pages, pages, pos', pos) by {
          NothingYet(pages, pos);
          SameWidens(pages, pages, pos', pos, pos);
        }
      }
      // copy_from_user may fault
      var fault := Trouble();
      if fault {
        return Err(EFAULT), pos', len', kpage';
      }
      ghost var before := pages;
      WriteInPlace(pages, pos', src[len'..len]);
      pages := Write(pages, kpage', offset, src[len'..len]);
      NothingYet(old(pages), pos);
      SameAnywhere(old(pages), before, pages, pos', pos);
      status := Ok;
    }

    /** get_arg_page with write access. */
    method MapPage(k: nat)
      requires Valid()
      modifies this`pages
      ensures Valid() && k in pages && SameOutside(old(pages), pages, 0, 0)
    {
      MappedSame(pages, k);
      pages := Mapped(pages, k);
    }

    /** Copy one string with its NUL so that it ends at end. */
    method CopyOne(src: seq<Byte>, end: nat, kmapped0: bool, kpage0: nat)
      returns (status: Status, kmapped: bool, kpage: nat)
      requires Valid() && |src| <= end && (kmapped0 ==> kpage0 in pages)
      modifies this`pages
      ensures Valid() && SameOutside(old(pages), pages, end - |src|, end)
      ensures status.Ok? ==> Holds(pages, end - |src|, src) && (kmapped ==> kpage in pages)
      ensures calm ==> status.Ok?
    {
      hide At, Holds, SameOutside, GoodPages;
      var pos: nat, len: nat := end, |src|;
      kmapped, kpage := kmapped0, kpage0;
      NothingYet(pages, pos);
      assert src[len..] == [];
      while len > 0
        invariant Valid() && len <= |src| && pos + |src| == end + len && (kmapped ==> kpage in pages)
        invariant SameOutside(old(pages), pages, pos, end) && Holds(pages, pos, src[len..])
      {
        ghost var before, was, at := pages, len, pos;
        status, pos, len, kpage := CopyChunk(src, pos, len, kmapped, kpage);
        SameTransitive(old(pages), before, pages, pos, at, end);
        if status.Err? {
          SameWidens(old(pages), pages, end - |src|, pos, end);
          return;
        }
        kmapped := true;
        Extend(before, pages, pos, at, src[len..was], src[was..]);
        assert src[len..was] + src[was..] == src[len..];
      }
      assert src[0..] == src;
      status := Ok;
    }

    /** copy_strings: the last string first, each below the one before it. */
    method CopyStrings(argv: seq<seq<Byte>>) returns (status: Status)
      requires Roomy()
      modifies this`p, this`pages
      ensures Valid() && p <= old(p) && SameOutside(old(pages), pages, p, old(p))
      ensures status.Ok? ==> Roomy() && p + |Encoded(argv)| == old(p) && Holds(pages, p, Encoded(argv))
      ensures status.Ok? ==> Short(argv) && argmin + |Encoded(argv)| <= old(p)
      ensures calm && status.Err? ==> status == Err(E2BIG) && !(Short(argv) && argmin + |Encoded(argv)| <= old(p))
    {
      hide At, Holds, SameOutside, GoodPages;
      NothingYet(pages, p);
      var kmapped, kpage := false, 0;
      var argc := |argv|;
      assert argv[argc..] == [];
      while argc > 0
        invariant argc <= |argv| && Roomy() && (kmapped ==> kpage in pages)
        invariant p + |Encoded(argv[argc..])| == old(p)
        invariant SameOutside(old(pages), pages, p, old(p)) && Holds(pages, p, Encoded(argv[argc..]))
        invariant Short(argv[argc..])
      {
        argc := argc - 1;
        // get_user or strnlen_user may fault
        var trouble := Trouble();
        if trouble {
          return Err(EFAULT);
        }
        var src := Terminated(argv[argc]);
        EncodedFrom(argv, argc);
        if |src| > MAX_ARG_STRLEN {
          return Err(E2BIG);
        }
        var pos := p;
        p := (p - |src|) % WORD;
        SameWidens(old(pages), pages, p, pos, old(p));
        if p < argmin {
          return Err(E2BIG);
        }
        ghost var before := pages;
        status, kmapped, kpage := CopyOne(src, pos, kmapped, kpage);
        SameTransitive(old(pages), before, pages, p, pos, old(p));
        if status.Err? {
          return;
        }
        Extend(before, pages, p, pos, src, Encoded(argv[argc + 1..]));
        assert argv[argc..][0] == argv[argc] && argv[argc..][1..] == argv[argc + 1..];
      }
      assert argv[0..] == argv;
      status := Ok;
    }

    /** copy_string_kernel: what copy_strings does to the one string, without a cached page. */
    method CopyStringKernel(arg: seq<Byte>) returns (status: Status)
      requires Roomy()
      modifies this`p, this`pages
      ensures Valid() && p <= old(p) && SameOutside(old(pages), pages, p, old(p))
      ensures status.Ok? ==> Roomy() && p + |Encoded([arg])| == old(p) && Holds(pages, p, Encoded([arg]))
      ensures status.Ok? ==> Short([arg]) && argmin + |Encoded([arg])| <= old(p)
      ensures calm && status.Err? ==> status == Err(E2BIG) && !(Short([arg]) && argmin + |Encoded([arg])| <= old(p))
    {
      hide At, Holds, SameOutside, GoodPages, Encoded, Short;
      var src := Terminated(arg);
      OneString(arg);
      NothingYet(pages, p);
      if |src| > MAX_ARG_STRLEN {
        return Err(E2BIG);
      }
      var pos: nat, len: nat := p, |src|;
      p := (p - len) % WORD;
      SameWidens(pages, pages, p, old(p), old(p));
      if p < argmin {
        return Err(E2BIG);
      }
      assert src[len..] == [];
      while len > 0
        invariant Valid() && len <= |src| && pos == p + len && p + |src| == old(p) && argmin <= p
        invariant SameOutside(old(pages), pages, pos, old(p)) && Holds(pages, pos, src[len..])
      {
        var offset := pos % PAGE_SIZE;
        offset := if offset == 0 then PAGE_SIZE else offset;
        var n := if len < offset then len else offset;
        BackInPage(pos, offset, n);
        ghost var before, at := pages, pos;
        var was := len;
        pos, len := pos - n, len - n;
        // get_arg_page may fail
        var trouble := Trouble();
        if trouble {
          SameWidens(old(pages), pages, p, at, old(p));
          return Err(E2BIG);
        }
        var k: nat := pos / PAGE_SIZE;
        MapPage(k);
        ghost var mapped := pages;
        WriteInPlace(pages, pos, src[len..was]);
        pages := Write(pages, k, pos % PAGE_SIZE, src[len..was]);
        SameAnywhere(before, mapped, pages, pos, at);
        SameTransitive(old(pages), before, pages, pos, at, old(p));
        Extend(before, pages, pos, at, src[len..was], src[was..]);
        assert src[len..was] + src[was..] == src[len..];
      }
      assert src[0..] == src;
      status := Ok;
    }

    /** The inner loop of remove_arg_zero: up to the first NUL in this page or the page's end. */
    method SkipInPage(k: nat, offset0: nat, ghost nul: nat) returns (offset: nat)
      requires Valid() && k in pages && p == k * PAGE_SIZE + offset0 && offset0 < PAGE_SIZE
      requires p <= nul < WORD && At(pages, nul) == 0
      modifies this`p
      ensures Valid() && old(p) <= p <= nul && offset <= PAGE_SIZE && p == k * PAGE_SIZE + offset
      ensures forall a :: old(p) <= a < p ==> At(pages, a) != 0
      ensures offset < PAGE_SIZE ==> At(pages, p) == 0
    {
      offset := offset0;
      while offset < PAGE_SIZE && pages[k][offset] != 0
        invariant Valid() && old(p) <= p <= nul && offset <= PAGE_SIZE && p == k * PAGE_SIZE + offset
        invariant forall a :: old(p) <= a < p ==> At(pages, a) != 0
        decreases PAGE_SIZE - offset
      {
        AtOffset(pages, k, offset);
        offset, p := offset + 1, p + 1;
      }
      if offset < PAGE_SIZE {
        AtOffset(pages, k, offset);
      }
    }

    /** remove_arg_zero: leave p just past the first NUL at or after it, across any number of pages. */
    method RemoveArgZero(ghost nul: nat) returns (status: Status)
      requires Valid() && nul + 1 < WORD
      requires argc > 0 ==> p <= nul && At(pages, nul) == 0
      modifies this`p, this`argc, this`pages
      ensures Valid() && SameOutside(old(pages), pages, 0, 0)
      ensures status.Ok? && old(argc) == 0 ==> p == old(p) && argc == 0
      ensures status.Ok? && old(argc) > 0 ==>
        && argc == old(argc) - 1 && old(p) < p && At(pages, p - 1) == 0
        && forall a :: old(p) <= a < p - 1 ==> At(pages, a) != 0
      ensures calm ==> status.Ok?
    {
      hide GoodPages;
      NothingYet(pages, p);
      if argc == 0 {
        return Ok;
      }
      while true
        invariant Valid() && old(p) <= p <= nul && argc == old(argc) && At(pages, nul) == 0
        invariant SameOutside(old(pages), pages, 0, 0)
        invariant forall a :: old(p) <= a < p ==> At(pages, a) != 0
        decreases nul - p
      {
        // get_arg_page may fail
        var trouble := Trouble();
        if trouble {
          return Err(EFAULT);
        }
        var k: nat, offset: nat := p / PAGE_SIZE, p % PAGE_SIZE;
        MapPage(k);
        offset := SkipInPage(k, offset, nul);
        if offset != PAGE_SIZE {
          break;
        }
      }
      p := p + 1;
      argc := argc - 1;
      status := Ok;
    }
  }

  lemma AtOffset(pages: Pages, k: nat, offset: nat)
    requires GoodPages(pages) && k in pages && offset < PAGE_SIZE
    ensures At(pages, k * PAGE_SIZE + offset) == pages[k][offset]
  {
    InPage(k * PAGE_SIZE, offset);
  }

  /** A chunk written just below what is already there. */
  lemma Extend(before: Pages, after: Pages, lo: nat, mid: nat, chunk: seq<Byte>, above: seq<Byte>)
    requires GoodPages(before) && GoodPages(after) && lo + |chunk| == mid
    requires SameOutside(before, after, lo, mid) && Holds(after, lo, chunk) && Holds(before, mid, above)
    ensures Holds(after, lo, chunk + above)
  {
    forall i | 0 <= i < |above|
      ensures At(after, mid + i) == above[i]
    {
      assert At(before, mid + i) == above[i];
    }
    HoldsAppend(after, lo, chunk, above);
  }

  /** Where the text at p starts with s NUL, the first NUL is the one after s. */
  lemma FirstNul(pages: Pages, p: nat, q: nat, s: seq<Byte>, rest: seq<Byte>)
    requires GoodPages(pages) && IsCString(s) && Holds(pages, p, Terminated(s) + rest)
    requires p < q && At(pages, q - 1) == 0 && forall a :: p <= a < q - 1 ==> At(pages, a) != 0
    ensures q == p + |s| + 1 && Holds(pages, q, rest)
  {
    var text := Terminated(s) + rest;
    assert At(pages, p + |s|) == text[|s|] == 0;
    forall a: nat | p <= a < p + |s|
      ensures At(pages, a) != 0
    {
      assert At(pages, p + (a - p)) == text[a - p] == s[a - p];
    }
    forall i | 0 <= i < |rest|
      ensures At(pages, q + i) == rest[i]
    {
      assert At(pages, p + (|s| + 1 + i)) == text[|s| + 1 + i];
    }
  }

  lemma HoldsSame(before: Pages, after: Pages, p: nat, text: seq<Byte>)
    requires GoodPages(before) && GoodPages(after) && Holds(before, p, text) && SameOutside(before, after, 0, 0)
    ensures Holds(after, p, text)
  {
  }

  /** remove_arg_zero drops exactly argv[0]. */
  method DropArgZero(bprm: Bprm, ghost argv: seq<seq<Byte>>) returns (status: Status)
    requires bprm.Valid() && argv != [] && bprm.argc == |argv| && bprm.p + |Encoded(argv)| < WORD
    requires IsCString(argv[0]) && Holds(bprm.pages, bprm.p, Encoded(argv))
    modifies bprm
    ensures bprm.Valid() && SameOutside(old(bprm.pages), bprm.pages, 0, 0)
    ensures status.Ok? ==>
      && bprm.argc == |argv[1..]| && bprm.p == old(bprm.p) + |argv[0]| + 1
      && Holds(bprm.pages, bprm.p, Encoded(argv[1..]))
    ensures bprm.calm ==> status.Ok?
  {
    ghost var s, rest, p0 := argv[0], Encoded(argv[1..]), bprm.p;
    assert Encoded(argv) == Terminated(s) + rest;
    assert At(bprm.pages, p0 + |s|) == (Terminated(s) + rest)[|s|] == 0;
    status := bprm.RemoveArgZero(p0 + |s|);
    if status.Ok? {
      HoldsSame(old(bprm.pages), bprm.pages, p0, Encoded(argv));
      FirstNul(bprm.pages, p0, bprm.p, s, rest);
    }
  }

  // ---- The whole copy and its budget ----

  /** argv as the program will see it: an empty argv gets one empty string. */
  function Final(argv: seq<seq<Byte>>): seq<seq<Byte>> { if argv == [] then [[]] else argv }

  lemma AllTogether(a: seq<seq<Byte>>, b: seq<seq<Byte>>, c: seq<Byte>)
    ensures |Encoded(a + b + [c])| == |Encoded(a)| + |Encoded(b)| + |Encoded([c])|
    ensures Short(a + b + [c]) <==> Short(a) && Short(b) && Short([c])
  {
    EncodedAppend(a + b, [c]);
    EncodedAppend(a, b);
    var all := a + b + [c];
    assert forall i :: 0 <= i < |a| ==> all[i] == a[i];
    assert forall i :: 0 <= i < |b| ==> all[|a| + i] == b[i];
    assert all[|a| + |b|] == c;
  }

  /** The copying part of do_execveat_common. On success the stack holds argv, environment and file name in
      that order, and together with one pointer per argv and environment entry they fit the budget. */
  method CopyAll(bprm: Bprm, filename: seq<Byte>, argv: seq<seq<Byte>>, envp: seq<seq<Byte>>, stackLimit: nat)
    returns (status: Status)
    requires bprm.Valid() && |argv| + |envp| < MAX_ARG_STRINGS
    requires bprm.p >= Limit(stackLimit) + MAX_ARG_STRLEN
    modifies bprm
    ensures bprm.Valid() && SameOutside(old(bprm.pages), bprm.pages, bprm.p, old(bprm.p))
    ensures status.Ok? ==>
      && bprm.argc == |Final(argv)| && bprm.envc == |envp|
      && var text := Encoded(Final(argv) + envp + [filename]);
         && bprm.p + |text| == old(bprm.p) && Holds(bprm.pages, bprm.p, text)
         && |text| + POINTER_SIZE * (bprm.argc + bprm.envc) <= Limit(stackLimit)
    ensures status.Ok? ==> Short(Final(argv) + envp + [filename])
    ensures bprm.calm && status.Err? ==>
      var all := Final(argv) + envp + [filename];
      && status == Err(E2BIG)
      && !(Short(all) && |Encoded(all)| + POINTER_SIZE * (|Final(argv)| + |envp|) <= Limit(stackLimit))
  {
    hide At, Holds, SameOutside, GoodPages, Encoded, Short;
    ghost var p0, pages0 := bprm.p, bprm.pages;
    NothingYet(bprm.pages, bprm.p);
    FirstIsEmpty(argv, envp + [filename]);
    assert argv + envp + [filename] == argv + (envp + [filename]);
    assert Final(argv) + envp + [filename] == Final(argv) + (envp + [filename]);
    bprm.argc, bprm.envc := |argv|, |envp|;
    // bprm_stack_limits
    var pointers := ((if bprm.argc > 1 then bprm.argc else 1) + bprm.envc) * POINTER_SIZE;
    if Limit(stackLimit) <= pointers {
      return Err(E2BIG);
    }
    bprm.argmin := bprm.p - (Limit(stackLimit) - pointers);
    status := CopyThree(bprm, filename, argv, envp);
    if status.Ok? && bprm.argc == 0 {
      ghost var pages3, p3 := bprm.pages, bprm.p;
      status := bprm.CopyStringKernel([]);
      SameTransitive(pages0, pages3, bprm.pages, bprm.p, p3, p0);
      if status.Ok? {
        Extend(pages3, bprm.pages, bprm.p, p3, Encoded([[]]), Encoded(argv + envp + [filename]));
        bprm.argc := 1;
      }
    }
  }

  /** An empty argv becomes one empty string, one byte more. */
  lemma FirstIsEmpty(argv: seq<seq<Byte>>, rest: seq<seq<Byte>>)
    ensures argv == [] ==>
      && Encoded(Final(argv) + rest) == Encoded([[]]) + Encoded(argv + rest)
      && (Short(Final(argv) + rest) <==> Short(argv + rest)) && Short([[]]) && |Encoded([[]])| == 1
    ensures argv != [] ==> Final(argv) == argv
    ensures |Encoded(Final(argv) + rest)| > 0
  {
    EncodedAppend([[]], rest);
    assert argv == [] ==> argv + rest == rest;
    assert Encoded([[]]) == Terminated([]) + Encoded([]);
    assert forall i :: 0 <= i < |rest| ==> ([[]] + rest)[i + 1] == rest[i];
  }

  /** The three copies, each below the one before. */
  method CopyThree(bprm: Bprm, filename: seq<Byte>, argv: seq<seq<Byte>>, envp: seq<seq<Byte>>)
    returns (status: Status)
    requires bprm.Roomy()
    modifies bprm`p, bprm`pages
    ensures bprm.Valid() && bprm.p <= old(bprm.p)
    ensures SameOutside(old(bprm.pages), bprm.pages, bprm.p, old(bprm.p))
    ensures var all := argv + envp + [filename];
      && (status.Ok? ==>
            && bprm.Roomy() && bprm.p + |Encoded(all)| == old(bprm.p) && Holds(bprm.pages, bprm.p, Encoded(all))
            && Short(all))
      && (bprm.calm && status.Err? ==>
            status == Err(E2BIG) && !(Short(all) && bprm.argmin + |Encoded(all)| <= old(bprm.p)))
  {
    hide At, Holds, SameOutside, GoodPages, Encoded, Short;
    ghost var p0, pages0 := bprm.p, bprm.pages;
    AllTogether(argv, envp, filename);
    status := bprm.CopyStringKernel(filename);
    if status.Err? {
      return;
    }
    ghost var pages1, p1 := bprm.pages, bprm.p;
    status := bprm.CopyStrings(envp);
    SameTransitive(pages0, pages1, bprm.pages, bprm.p, p1, p0);
    if status.Err? {
      return;
    }
    Extend(pages1, bprm.pages, bprm.p, p1, Encoded(envp), Encoded([filename]));
    EncodedAppend(envp, [filename]);
    ghost var pages2, p2 := bprm.pages, bprm.p;
    status := bprm.CopyStrings(argv);
    SameTransitive(pages0, pages2, bprm.pages, bprm.p, p2, p0);
    if status.Err? {
      return;
    }
    Extend(pages2, bprm.pages, bprm.p, p2, Encoded(argv), Encoded(envp + [filename]));
    EncodedAppend(argv, envp + [filename]);
    assert argv + (envp + [filename]) == argv + envp + [filename];
  }
}
