/** _proc_do_string in strict mode: a string sysctl in a fixed buffer, written and read in pieces. */
module SysctlString {
  import opened Texts

  const NUL: char := '\0'

  /** strlen */
  function StrLen(s: seq<char>): (n: nat)
    ensures n <= |s| && (n < |s| ==> s[n] == NUL) && forall i :: 0 <= i < n ==> s[i] != NUL
  {
    if s == [] || s[0] == NUL then 0 else 1 + StrLen(s[1..])
  }

  lemma {:induction false} StrLenIs(s: seq<char>, n: nat)
    requires n < |s| && s[n] == NUL && forall i :: 0 <= i < n ==> s[i] != NUL
    ensures StrLen(s) == n
  {
  }

  lemma Terminated(s: seq<char>, kept: string, more: string)
    requires |kept + more| < |s| && s[..|kept + more|] == kept + more && s[|kept + more|] == NUL
    requires forall i :: 0 <= i < |kept| ==> kept[i] != NUL
    requires forall i :: 0 <= i < |more| ==> more[i] != NUL
    ensures StrLen(s) == |kept + more|
  {
    forall i | 0 <= i < |kept + more| ensures s[i] != NUL {
      assert s[i] == s[..|kept + more|][i];
    }
    StrLenIs(s, |kept + more|);
  }

  predicate IsEnd(c: char) { c == NUL || c == '\n' }

  /** The text before its first newline or NUL. */
  function Cut(s: string): (r: string)
    ensures r <= s && (forall i :: 0 <= i < |r| ==> !IsEnd(r[i])) && (|r| < |s| ==> IsEnd(s[|r|]))
  {
    if s == [] || IsEnd(s[0]) then [] else [s[0]] + Cut(s[1..])
  }

  /** What one write of the whole text leaves in a buffer of maxlen bytes. */
  function Whole(text: string, maxlen: nat): string
    requires maxlen > 0
  {
    Clip(Cut(text), maxlen - 1)
  }

  lemma {:induction false} CutAppend(a: string, b: string)
    ensures Cut(a + b) == if |Cut(a)| < |a| then Cut(a) else a + Cut(b)
  {
    if a == [] {
      assert a + b == b;
    } else {
      assert (a + b)[0] == a[0] && (a + b)[1..] == a[1..] + b;
      if !IsEnd(a[0]) {
        CutAppend(a[1..], b);
        assert a == [a[0]] + a[1..];
      }
    }
  }

  /** Where a text has been cut short, more text changes nothing; where it has not, more text goes on. */
  lemma WholeAppend(a: string, b: string, maxlen: nat)
    requires maxlen > 0
    ensures |Whole(a, maxlen)| <= |a| && |Whole(a, maxlen)| < maxlen
    ensures |Whole(a, maxlen)| < |a| ==> Whole(a + b, maxlen) == Whole(a, maxlen)
    ensures |Whole(a, maxlen)| == |a| ==>
      Whole(a, maxlen) == a && Whole(a + b, maxlen) == a + Clip(Cut(b), maxlen - 1 - |a|)
  {
    CutAppend(a, b);
    if |Cut(a)| == |a| {
      assert Cut(a) == a;
    }
  }

  function Concat(pieces: seq<string>): string {
    if pieces == [] then [] else Concat(pieces[..|pieces| - 1]) + pieces[|pieces| - 1]
  }

  lemma ConcatNone(pieces: seq<string>)
    ensures Concat(pieces[..0]) == []
  {
  }

  lemma ConcatOne(pieces: seq<string>, i: nat)
    requires i < |pieces|
    ensures Concat(pieces[..i + 1]) == Concat(pieces[..i]) + pieces[i]
  {
    assert pieces[..i + 1][..i] == pieces[..i];
  }

  function Sum(sizes: seq<nat>): nat {
    if sizes == [] then 0 else Sum(sizes[..|sizes| - 1]) + sizes[|sizes| - 1]
  }

  /** The last position at which a write may go on. */
  function Limit(value: string, maxlen: nat): int {
    if |value| > maxlen - 1 then maxlen - 1 else |value|
  }

  /** How far a run of writes has come: text is what they have been given, pos the position they are at. */
  ghost predicate Reached(text: string, pos: nat, value: string, first: string, maxlen: nat)
    requires maxlen > 0
  {
    if text == [] then pos == 0 && value == first
    else value == Whole(text, maxlen) && pos <= |text| && (pos == |text| || pos > |value|)
  }

  lemma ReachedOn(text: string, piece: string, pos: nat, value: string, first: string, maxlen: nat,
                  pos': nat, value': string)
    requires maxlen > 0 && Reached(text, pos, value, first, maxlen)
    requires piece == [] || pos > Limit(value, maxlen) ==> value' == value && pos' == pos
    requires piece != [] && pos <= Limit(value, maxlen) ==>
      && value' == value[..pos] + Clip(Cut(piece), maxlen - 1 - pos) && pos' == pos + |piece|
    ensures Reached(text + piece, pos', value', first, maxlen)
  {
    hide Cut, Clip, Whole, Limit;
    assert text == [] ==> Limit(value, maxlen) >= 0 by { LimitIs(value, maxlen); }
    if piece == [] {
      assert text + piece == text;
    } else if text == [] {
      assert text + piece == piece && value[..0] == [];
      WholeOfFirst(piece, maxlen);
    } else {
      LaterPiece(text, piece, pos, value, maxlen, pos', value');
    }
  }

  lemma LimitIs(value: string, maxlen: nat)
    requires maxlen > 0
    ensures 0 <= Limit(value, maxlen) <= |value|
    ensures |value| < maxlen ==> Limit(value, maxlen) == |value|
  {
  }

  lemma LaterPiece(text: string, piece: string, pos: nat, value: string, maxlen: nat, pos': nat, value': string)
    requires maxlen > 0 && text != [] && piece != []
    requires value == Whole(text, maxlen) && pos <= |text| && (pos == |text| || pos > |value|)
    requires pos > Limit(value, maxlen) ==> value' == value && pos' == pos
    requires pos <= Limit(value, maxlen) ==>
      && value' == value[..pos] + Clip(Cut(piece), maxlen - 1 - pos) && pos' == pos + |piece|
    ensures value' == Whole(text + piece, maxlen) && pos' <= |text + piece|
    ensures pos' == |text + piece| || pos' > |value'|
  {
    hide Cut, Clip, Whole, Limit;
    WholeAppend(text, piece, maxlen);
    LimitIs(value, maxlen);
    if |value| == |text| {
      assert value[..pos] == text;
    }
  }

  lemma WholeOfFirst(piece: string, maxlen: nat)
    requires maxlen > 0
    ensures [] + Clip(Cut(piece), maxlen - 1) == Whole(piece, maxlen)
    ensures |Whole(piece, maxlen)| <= |piece| && |Whole(piece, maxlen)| < maxlen
  {
  }

  class Table {
    const data: array<char>

    /** The string in the buffer; it need not end in a NUL when some other code filled the buffer. */
    ghost function Value(): string
      reads data
    {
      data[..StrLen(data[..])]
    }

    constructor (maxlen: nat)
      ensures data.Length == maxlen && Value() == "" && fresh(data)
    {
      data := new char[maxlen](_ => NUL);
      new;
      if maxlen > 0 {
        StrLenIs(data[..], 0);
      }
    }

    /** The copying loop: buffer up to its first newline or NUL, as far as it fits. */
    method Fill(buffer: string, pos: nat) returns (len: nat)
      requires pos < data.Length
      modifies data
      ensures len == pos + |Clip(Cut(buffer), data.Length - 1 - pos)| < data.Length
      ensures data[..len] == old(data[..pos]) + Clip(Cut(buffer), data.Length - 1 - pos)
    {
      hide Cut, Clip;
      len := pos;
      var p := 0;
      ghost var goal := Clip(Cut(buffer), data.Length - 1 - pos);
      while p < |buffer| && len < data.Length - 1
        invariant p <= |buffer| && len == pos + p <= data.Length - 1
        invariant p <= |goal| && data[..len] == old(data[..pos]) + goal[..p]
      {
        var c := buffer[p];
        p := p + 1;
        if c == NUL || c == '\n' {
          break;
        }
        assert c == goal[p - 1];
        data[len] := c;
        len := len + 1;
        assert data[..len] == data[..len - 1] + [c];
      }
      assert len == pos + |goal| && goal[..|goal|] == goal;
    }

    /** A write at position pos goes on from there, unless pos is past the end of the string. */
    method Write(buffer: string, pos: nat) returns (pos': nat)
      modifies data
      ensures buffer == [] || data.Length == 0 || pos > Limit(old(Value()), data.Length) ==>
        Value() == old(Value()) && pos' == pos
      ensures buffer != [] && data.Length > 0 && pos <= Limit(old(Value()), data.Length) ==>
        && Value() == old(Value())[..pos] + Clip(Cut(buffer), data.Length - 1 - pos)
        && pos' == pos + |buffer|
    {
      hide Cut, Clip, StrLen;
      if data.Length == 0 || buffer == [] {
        return pos;
      }
      var len: nat := StrLen(data[..]);
      if len > data.Length - 1 {
        len := data.Length - 1;
      }
      if pos > len {
        return pos;
      }
      ghost var kept := data[..pos];
      assert kept == Value()[..pos];
      assert forall i :: 0 <= i < pos ==> data[..][i] == kept[i] && kept[i] != NUL;
      pos' := pos + |buffer|;
      len := Fill(buffer, pos);
      data[len] := NUL;
      Terminated(data[..], kept, Clip(Cut(buffer), data.Length - 1 - pos));
    }

    /** A read at position pos: what there is of the string and, after its end, one newline. */
    method Read(size: nat, pos: nat) returns (out: string, pos': nat)
      ensures pos' == pos + |out|
      ensures size == 0 || data.Length == 0 || pos > |Value()| ==> out == ""
      ensures size > 0 && data.Length > 0 && pos <= |Value()| ==> out == Clip((Value() + "\n")[pos..], size)
    {
      var len := StrLen(data[..]);
      if data.Length == 0 || size == 0 || pos > len {
        return "", pos;
      }
      len := len - pos;
      if len > size {
        len := size;
      }
      out := data[pos..pos + len];
      assert out == Value()[pos..pos + len] == Value()[pos..][..len];
      assert (Value() + "\n")[pos..] == Value()[pos..] + "\n";
      if len < size {
        out := out + "\n";
      }
      pos' := pos + |out|;
    }

    /** However a text is split into consecutive writes from position 0, the string ends up as one write of
        the whole text would leave it. */
    method WriteAll(pieces: seq<string>)
      requires data.Length > 0
      modifies data
      ensures Value() == if Concat(pieces) == [] then old(Value()) else Whole(Concat(pieces), data.Length)
    {
      hide Cut, Clip, Whole, StrLen, Limit, Concat;
      ConcatNone(pieces);
      var pos := 0;
      for i := 0 to |pieces|
        invariant Reached(Concat(pieces[..i]), pos, Value(), old(Value()), data.Length)
      {
        ghost var p, v := pos, Value();
        ConcatOne(pieces, i);
        pos := Write(pieces[i], pos);
        ReachedOn(Concat(pieces[..i]), pieces[i], p, v, old(Value()), data.Length, pos, Value());
      }
      assert pieces[..|pieces|] == pieces;
    }

    /** Consecutive reads of any positive sizes give the string and one newline, as far as the sizes go. */
    method ReadAll(sizes: seq<nat>) returns (out: string)
      requires data.Length > 0 && forall i :: 0 <= i < |sizes| ==> sizes[i] > 0
      ensures out == Clip(Value() + "\n", Sum(sizes))
    {
      out := "";
      var pos := 0;
      for i := 0 to |sizes|
        invariant out == Clip(Value() + "\n", Sum(sizes[..i])) && pos == |out|
      {
        assert sizes[..i + 1][..i] == sizes[..i];
        var more: string;
        more, pos := Read(sizes[i], pos);
        out := out + more;
      }
      assert sizes[..|sizes|] == sizes;
    }
  }
}
