/** The Arduino String of Arduino/WString.cpp: a NUL-terminated buffer, and its
    in-place search and replace. */
module WString {
  /** Does `f` stand at position `i` of `s`? */
  predicate At(s: seq<char>, f: seq<char>, i: nat) {
    i + |f| <= |s| && s[i..i + |f|] == f
  }

  /** The first position of `f` in `s` from `p` on, or -1: what strstr finds. */
  function IndexFrom(s: seq<char>, f: seq<char>, p: nat): (r: int)
    requires p <= |s|
    ensures r == -1 || (p <= r && r + |f| <= |s| && At(s, f, r))
    ensures forall i :: p <= i <= |s| && (r < 0 || i < r) ==> !At(s, f, i)
    decreases |s| - p
  {
    if At(s, f, p) then p else if p == |s| then -1 else IndexFrom(s, f, p + 1)
  }

  /** `s` from `p` on, with every occurrence of `f`, found from the left without
      overlap, replaced by `r`. */
  function ReplacedFrom(s: seq<char>, f: seq<char>, r: seq<char>, p: nat): seq<char>
    requires f != [] && p <= |s|
    decreases |s| - p
  {
    var i := IndexFrom(s, f, p);
    if i < 0 then s[p..] else s[p..i] + r + ReplacedFrom(s, f, r, i + |f|)
  }

  function Replaced(s: seq<char>, f: seq<char>, r: seq<char>): seq<char>
    requires f != []
  {
    ReplacedFrom(s, f, r, 0)
  }

  /** The pieces of `s` between those occurrences, from `p` on. */
  function Split(s: seq<char>, f: seq<char>, p: nat): (pieces: seq<seq<char>>)
    requires f != [] && p <= |s|
    ensures pieces != []
    decreases |s| - p
  {
    var i := IndexFrom(s, f, p);
    if i < 0 then [s[p..]] else [s[p..i]] + Split(s, f, i + |f|)
  }

  function Join(pieces: seq<seq<char>>, sep: seq<char>): seq<char>
    requires pieces != []
  {
    if |pieces| == 1 then pieces[0] else pieces[0] + sep + Join(pieces[1..], sep)
  }

  /** Replacement is splitting and joining: the pieces joined with the pattern are the
      text again, and joined with the replacement they are the result. */
  lemma {:induction false} ReplacedIsJoin(s: seq<char>, f: seq<char>, r: seq<char>, p: nat)
    requires f != [] && p <= |s|
    ensures Join(Split(s, f, p), f) == s[p..]
    ensures Join(Split(s, f, p), r) == ReplacedFrom(s, f, r, p)
    decreases |s| - p
  {
    var i := IndexFrom(s, f, p);
    if i >= 0 {
      var q := i + |f|;
      var rest := Split(s, f, q);
      ReplacedIsJoin(s, f, r, q);
      assert Split(s, f, p) == [s[p..i]] + rest;
      JoinCons(s[p..i], rest, f);
      JoinCons(s[p..i], rest, r);
      ThreeParts(s, p, i, q);
    }
  }

  lemma JoinCons(first: seq<char>, rest: seq<seq<char>>, sep: seq<char>)
    requires rest != []
    ensures Join([first] + rest, sep) == first + sep + Join(rest, sep)
  {
    assert ([first] + rest)[1..] == rest;
  }

  lemma ThreeParts(s: seq<char>, p: nat, i: nat, q: nat)
    requires p <= i <= q <= |s|
    ensures s[p..] == s[p..i] + s[i..q] + s[q..]
  {}

  /** The split is the leftmost one: in each piece followed by the pattern, the pattern
      first occurs at the end; in the last piece it does not occur. */
  lemma {:induction false} SplitIsLeftmost(s: seq<char>, f: seq<char>, p: nat, k: nat)
    requires f != [] && p <= |s| && k < |Split(s, f, p)|
    ensures var pieces := Split(s, f, p);
            if k == |pieces| - 1 then IndexFrom(pieces[k], f, 0) == -1
            else IndexFrom(pieces[k] + f, f, 0) == |pieces[k]|
    decreases k
  {
    hide At, IndexFrom;
    var i := IndexFrom(s, f, p);
    var pieces := Split(s, f, p);
    if i < 0 {
      FirstPiece(s, f, p);
      assert pieces == [s[p..]];
    } else if k == 0 {
      FirstPiece(s, f, p);
      assert |pieces| > 1 && pieces[0] == s[p..i];
    } else {
      var rest := Split(s, f, i + |f|);
      assert pieces == [s[p..i]] + rest;
      SplitIsLeftmost(s, f, i + |f|, k - 1);
      assert pieces[k] == rest[k - 1];
    }
  }

  lemma FirstPiece(s: seq<char>, f: seq<char>, p: nat)
    requires f != [] && p <= |s|
    ensures var i := IndexFrom(s, f, p);
            if i < 0 then IndexFrom(s[p..], f, 0) == -1 else IndexFrom(s[p..i] + f, f, 0) == i - p
  {
    var i := IndexFrom(s, f, p);
    if i < 0 {
      var t := s[p..];
      assert t == s[p..|s|];
      SubstringAt(s, f, p, |s|);
      assert forall j :: 0 <= j <= |t| ==> !At(t, f, j);
    } else {
      var t := s[p..i + |f|];
      assert s[p..i] + f == t;
      SubstringAt(s, f, p, i + |f|);
      FirstIndex(t, f, i - p);
    }
  }

  lemma FirstIndex(t: seq<char>, f: seq<char>, i: nat)
    requires At(t, f, i) && forall j :: 0 <= j < i ==> !At(t, f, j)
    ensures IndexFrom(t, f, 0) == i
  {}

  lemma SubstringAt(s: seq<char>, f: seq<char>, p: nat, q: nat)
    requires p <= q <= |s|
    ensures forall j :: 0 <= j <= q - p - |f| ==> (At(s[p..q], f, j) <==> At(s, f, p + j))
  {
    forall j | 0 <= j <= q - p - |f| ensures At(s[p..q], f, j) <==> At(s, f, p + j) {
      SliceOfSlice(s, p, q, j, j + |f|);
    }
  }

  lemma SliceOfSlice(s: seq<char>, p: nat, q: nat, a: nat, b: nat)
    requires a <= b <= q - p && p <= q <= |s|
    ensures s[p..q][a..b] == s[p + a..p + b]
  {
    assert forall k :: 0 <= k < b - a ==> s[p..q][a..b][k] == s[p + a..p + b][k];
  }

  /** A replacing loop has turned `s[..p]` into `done`. */
  ghost predicate Progress(s: seq<char>, f: seq<char>, r: seq<char>, done: seq<char>, p: nat) {
    f != [] && p <= |s| && done + ReplacedFrom(s, f, r, p) == Replaced(s, f, r)
  }

  lemma ProgressStart(s: seq<char>, f: seq<char>, r: seq<char>)
    requires f != []
    ensures Progress(s, f, r, [], 0)
  {}

  lemma ProgressStep(s: seq<char>, f: seq<char>, r: seq<char>, done: seq<char>, p: nat)
    requires Progress(s, f, r, done, p) && IndexFrom(s, f, p) >= 0
    ensures var i := IndexFrom(s, f, p);
            p <= i && i + |f| <= |s| && Progress(s, f, r, done + (s[p..i] + r), i + |f|)
  {
    hide At, IndexFrom;
    var i := IndexFrom(s, f, p);
    var rest := ReplacedFrom(s, f, r, i + |f|);
    assert ReplacedFrom(s, f, r, p) == s[p..i] + r + rest;
    hide ReplacedFrom;
    Associative(done, s[p..i] + r, rest);
  }

  lemma ProgressEnd(s: seq<char>, f: seq<char>, r: seq<char>, done: seq<char>, p: nat)
    requires Progress(s, f, r, done, p) && IndexFrom(s, f, p) < 0
    ensures done + s[p..] == Replaced(s, f, r)
  {}

  lemma Associative(a: seq<char>, b: seq<char>, c: seq<char>)
    ensures a + (b + c) == a + b + c
  {}

  lemma NoNul(done: seq<char>, s: seq<char>, i: nat, j: nat, r: seq<char>)
    requires i <= j <= |s| && '\0' !in done && '\0' !in s && '\0' !in r
    ensures '\0' !in done + (s[i..j] + r)
  {}

  class ArduinoString {
    const buffer: array<char>
    var len: nat

    /** From `from` on, the buffer holds the end of the C string `text`. */
    ghost predicate Tail(text: seq<char>, from: nat)
      reads this, buffer
    {
      && from <= |text| < buffer.Length && buffer[|text|] == '\0' && '\0' !in text
      && forall k :: from <= k < |text| ==> buffer[k] == text[k] != '\0'
    }

    /** The buffer begins with `done`. */
    ghost predicate Begins(done: seq<char>)
      reads this, buffer
    {
      |done| <= buffer.Length && forall k :: 0 <= k < |done| ==> buffer[k] == done[k]
    }

    ghost predicate Valid()
      reads this, buffer
    {
      len < buffer.Length && buffer[len] == '\0' && '\0' !in buffer[..len]
    }

    ghost function Text(): seq<char>
      requires len <= buffer.Length
      reads this, buffer
    {
      buffer[..len]
    }

    constructor (text: seq<char>, capacity: nat)
      requires |text| <= capacity && '\0' !in text
      ensures Valid() && Text() == text && fresh(buffer)
    {
      buffer := new char[capacity + 1](i => if 0 <= i < |text| then text[i] else '\0');
      len := |text|;
      new;
      assert buffer[..len] == text;
    }

    /** strstr from a position of the buffer. */
    method StrStr(from: nat, find: seq<char>, ghost text: seq<char>) returns (at: int)
      requires Tail(text, from) && '\0' !in find
      ensures at == IndexFrom(text, find, from)
    {
      ghost var end := |text|;
      var p := from;
      while true
        invariant from <= p <= end
        invariant IndexFrom(text, find, from) == IndexFrom(text, find, p)
        decreases end - p
      {
        var n := 0;
        while n < |find| && buffer[p + n] == find[n]
          invariant 0 <= n <= |find| && p + n <= end
          invariant forall k :: 0 <= k < n ==> text[p + k] == find[k]
        {
          assert find[n] in find;
          n := n + 1;
        }
        if n == |find| {
          assert text[p..p + n] == find;
          return p;
        }
        assert p + |find| <= end ==> text[p..p + |find|][n] == text[p + n];
        if buffer[p] == '\0' {
          return -1;
        }
        p := p + 1;
      }
    }

    /** memcpy within the buffer towards its start, byte by byte from the left: the
        write position is never past the read position. */
    method CopyDown(dst: nat, src: nat, n: nat)
      requires dst <= src && src + n <= buffer.Length
      modifies buffer
      ensures forall k :: 0 <= k < buffer.Length ==>
                buffer[k] == if dst <= k < dst + n then old(buffer[k - dst + src]) else old(buffer[k])
    {
      for i := 0 to n
        invariant forall k :: 0 <= k < buffer.Length ==>
                    buffer[k] == if dst <= k < dst + i then old(buffer[k - dst + src]) else old(buffer[k])
      {
        buffer[dst + i] := buffer[src + i];
      }
    }

    /** memcpy of another string into the buffer. */
    method CopyIn(dst: nat, text: seq<char>)
      requires dst + |text| <= buffer.Length
      modifies buffer
      ensures forall k :: 0 <= k < buffer.Length ==>
                buffer[k] == if dst <= k < dst + |text| then text[k - dst] else old(buffer[k])
    {
      for i := 0 to |text|
        invariant forall k :: 0 <= k < buffer.Length ==>
                    buffer[k] == if dst <= k < dst + i then text[k - dst] else old(buffer[k])
      {
        buffer[dst + i] := text[i];
      }
    }

    /** strcpy within the buffer towards its start, up to and with the terminator. */
    method StrCpyDown(dst: nat, src: nat, ghost done: seq<char>, ghost text: seq<char>)
      requires dst <= src && Tail(text, src) && Begins(done) && |done| == dst
      modifies buffer
      ensures Begins(done + text[src..]) && buffer[|done + text[src..]|] == '\0'
    {
      var i := 0;
      while buffer[src + i] != '\0'
        invariant 0 <= i <= |text| - src
        invariant Tail(text, src + i) && Begins(done + text[src..src + i])
        decreases |text| - src - i
      {
        buffer[dst + i] := buffer[src + i];
        i := i + 1;
      }
      buffer[dst + i] := '\0';
      assert text[src..src + i] == text[src..];
    }

    /** replace(find, replace), for a replacement no longer than the pattern. */
    method Replace(find: seq<char>, replace: seq<char>)
      requires Valid() && '\0' !in find && '\0' !in replace && |replace| <= |find|
      modifies this`len, buffer
      ensures Valid()
      ensures Text() == if find == [] then old(Text()) else Replaced(old(Text()), find, replace)
    {
      if len == 0 || |find| == 0 {
        return;
      }
      if |replace| == |find| {
        ReplaceSame(find, replace);
      } else {
        ReplaceShorter(find, replace);
      }
    }

    method ReplaceSame(find: seq<char>, replace: seq<char>)
      requires Valid() && '\0' !in find && '\0' !in replace && |replace| == |find| > 0
      modifies buffer
      ensures Valid() && Text() == Replaced(old(Text()), find, replace)
    {
      hide Progress, IndexFrom, Replaced;
      ghost var text, done := Text(), [];
      var readFrom := 0;
      ProgressStart(text, find, replace);
      var foundAt := StrStr(readFrom, find, text);
      while foundAt >= 0
        invariant 0 <= readFrom <= len && Tail(text, readFrom)
        invariant |done| == readFrom && Begins(done) && '\0' !in done
        invariant foundAt == IndexFrom(text, find, readFrom)
        invariant Progress(text, find, replace, done, readFrom)
        decreases len - readFrom
      {
        ProgressStep(text, find, replace, done, readFrom);
        NoNul(done, text, readFrom, foundAt, replace);
        CopyIn(foundAt, replace);
        done := done + (text[readFrom..foundAt] + replace);
        readFrom := foundAt + |replace|;
        foundAt := StrStr(readFrom, find, text);
      }
      ProgressEnd(text, find, replace, done, readFrom);
      Finished(done + text[readFrom..]);
    }

    /** One round of the shrinking loop: the text before the match, then the replacement. */
    method MoveAndInsert(ghost done: seq<char>, ghost text: seq<char>, writeTo: nat, readFrom: nat, foundAt: nat,
                         replace: seq<char>, ghost next: nat)
      requires Tail(text, readFrom) && Begins(done) && writeTo == |done|
      requires writeTo <= readFrom <= foundAt && foundAt + |replace| <= next <= |text|
      modifies buffer
      ensures Tail(text, next) && Begins(done + (text[readFrom..foundAt] + replace))
    {
      CopyDown(writeTo, readFrom, foundAt - readFrom);
      CopyIn(writeTo + (foundAt - readFrom), replace);
    }

    method ReplaceShorter(find: seq<char>, replace: seq<char>)
      requires Valid() && '\0' !in find && '\0' !in replace && |replace| < |find|
      modifies this`len, buffer
      ensures Valid() && Text() == Replaced(old(Text()), find, replace)
    {
      hide Progress, IndexFrom, Replaced;
      ghost var text, done := Text(), [];
      var readFrom, writeTo := 0, 0;
      ProgressStart(text, find, replace);
      var foundAt := StrStr(readFrom, find, text);
      while foundAt >= 0
        invariant 0 <= writeTo <= readFrom <= |text| && len == |text| - (readFrom - writeTo)
        invariant Tail(text, readFrom) && |done| == writeTo && Begins(done) && '\0' !in done
        invariant foundAt == IndexFrom(text, find, readFrom)
        invariant Progress(text, find, replace, done, readFrom)
        decreases |text| - readFrom
      {
        ProgressStep(text, find, replace, done, readFrom);
        NoNul(done, text, readFrom, foundAt, replace);
        var n := foundAt - readFrom;
        MoveAndInsert(done, text, writeTo, readFrom, foundAt, replace, foundAt + |find|);
        done := done + (text[readFrom..foundAt] + replace);
        writeTo := writeTo + n;
        writeTo := writeTo + |replace|;
        readFrom := foundAt + |find|;
        len := len + |replace| - |find|;
        foundAt := StrStr(readFrom, find, text);
      }
      ProgressEnd(text, find, replace, done, readFrom);
      StrCpyDown(writeTo, readFrom, done, text);
      Finished(done + text[readFrom..]);
    }

    lemma Finished(text: seq<char>)
      requires Begins(text) && '\0' !in text && len == |text| < buffer.Length && buffer[len] == '\0'
      ensures Valid() && Text() == text
    {
      assert Text() == text;
    }

    /** lastIndexOf(s2, fromIndex): the last occurrence at or before a position. */
    method LastIndexOf(find: seq<char>, fromIndex: nat) returns (found: int)
      requires Valid() && '\0' !in find
      ensures found == -1 || (0 <= found <= fromIndex && found < len && At(Text(), find, found))
      ensures found == -1 <==> find == [] || forall i :: 0 <= i <= fromIndex && i < len ==> !At(Text(), find, i)
      ensures found >= 0 ==> forall i :: found < i <= fromIndex && i < len ==> !At(Text(), find, i)
    {
      found := -1;
      if |find| == 0 || len == 0 || |find| > len {
        return;
      }
      var last := if fromIndex >= len then len - 1 else fromIndex;
      var p := 0;
      while p <= last
        invariant 0 <= p <= len
        invariant found == -1 || (0 <= found < p && found <= last && At(Text(), find, found))
        invariant forall i :: 0 <= i < p && i <= last && found < i ==> !At(Text(), find, i)
      {
        var at := StrStr(p, find, Text());
        if at < 0 {
          break;
        }
        if at <= last {
          found := at;
        }
        p := at + 1;
      }
    }
  }
}
