/** The character stream of Arduino/Stream.cpp and its search for several targets
    at once. */
module Streams {
  import opened Words

  /** Characters are compared as `int`: read() gives 0..255, a target holds `char`s,
      which may be negative, so both are integers here. */
  ghost predicate EndsWith(s: seq<int>, t: seq<int>) {
    |t| <= |s| && s[|s| - |t|..] == t
  }

  /** `k` is the length of the longest proper prefix of `t` that `s` ends with. */
  ghost predicate Longest(t: seq<int>, s: seq<int>, k: nat) {
    && k < |t| && EndsWith(s, t[..k])
    && forall j :: k < j < |t| ==> !EndsWith(s, t[..j])
  }

  /** The part of `t[..k]` before a mismatch with `c` that can be kept with it: is
      `t[..j]` what `t[..k] + [c]` ends with? */
  ghost predicate Reusable(t: seq<int>, k: nat, c: int, j: nat)
    requires k <= |t|
  {
    0 < j <= k && t[j - 1] == c && forall i :: 0 <= i < j - 1 ==> t[i] == t[i + k - j + 1]
  }

  lemma EndsWithStep(s: seq<int>, c: int, t: seq<int>, j: nat)
    requires 0 < j <= |t|
    ensures EndsWith(s + [c], t[..j]) <==> t[j - 1] == c && EndsWith(s, t[..j - 1])
  {
    var s', p := s + [c], t[..j];
    if j <= |s'| {
      assert p == p[..j - 1] + [t[j - 1]] && p[..j - 1] == t[..j - 1];
      assert s'[|s'| - j..] == s[|s| - (j - 1)..] + [c];
    }
  }

  /** Two suffixes of the same text: the shorter one is a suffix of the longer. */
  lemma SuffixOfSuffix(s: seq<int>, t: seq<int>, k: nat, j: nat)
    requires j <= k <= |t| && EndsWith(s, t[..k])
    ensures EndsWith(s, t[..j]) <==> forall i :: 0 <= i < j ==> t[i] == t[i + k - j]
  {
    var tail := s[|s| - k..];
    assert tail == t[..k];
    assert s[|s| - j..] == tail[k - j..];
    if EndsWith(s, t[..j]) {
      forall i | 0 <= i < j ensures t[i] == t[i + k - j] {
        assert t[..j][i] == tail[k - j..][i];
      }
    }
  }

  /** After a match of the next character. */
  lemma MatchStep(t: seq<int>, s: seq<int>, k: nat, c: int)
    requires Longest(t, s, k) && t[k] == c
    ensures k + 1 == |t| ==> EndsWith(s + [c], t)
    ensures k + 1 < |t| ==> Longest(t, s + [c], k + 1) && !EndsWith(s + [c], t)
  {
    EndsWithStep(s, c, t, k + 1);
    assert t[..|t|] == t;
    forall j | k + 1 < j <= |t| ensures !EndsWith(s + [c], t[..j]) {
      EndsWithStep(s, c, t, j);
    }
  }

  /** After a mismatch: the longest reusable prefix is the longest that fits. */
  lemma MismatchStep(t: seq<int>, s: seq<int>, k: nat, c: int, r: nat)
    requires Longest(t, s, k) && t[k] != c && r <= k
    requires r > 0 ==> Reusable(t, k, c, r)
    requires forall j :: r < j <= k ==> !Reusable(t, k, c, j)
    ensures Longest(t, s + [c], r) && !EndsWith(s + [c], t)
  {
    assert t[..|t|] == t;
    forall j | 0 < j <= |t| ensures EndsWith(s + [c], t[..j]) <==> j <= k && Reusable(t, k, c, j) {
      EndsWithStep(s, c, t, j);
      if j <= k {
        SuffixOfSuffix(s, t, k, j - 1);
      }
    }
  }

  /** The search outcome for an input of which `s` was consumed. */
  ghost predicate Outcome(targets: seq<seq<int>>, s: seq<int>, found: int) {
    && -1 <= found < |targets|
    && (forall m, i :: 0 <= m < |s| && 0 <= i < |targets| ==> !EndsWith(s[..m], targets[i]))
    && (if found < 0 then forall i :: 0 <= i < |targets| ==> !EndsWith(s, targets[i])
        else EndsWith(s, targets[found]) && forall i :: 0 <= i < found ==> !EndsWith(s, targets[i]))
  }

  /** The indices of the targets from `lo` on are those for the text `s`. */
  ghost predicate Tracked(targets: seq<seq<int>>, index: seq<nat>, s: seq<int>, lo: nat, hi: nat)
    requires |index| == |targets| && hi <= |targets|
  {
    forall i :: lo <= i < hi ==> Longest(targets[i], s, index[i])
  }

  ghost predicate NoneEnds(targets: seq<seq<int>>, s: seq<int>, n: nat)
    requires n <= |targets|
  {
    forall i :: 0 <= i < n ==> !EndsWith(s, targets[i])
  }

  /** The contract of FindMulti leaves no choice: the consumed text and the target found
      are the same in any two searches of one input. */
  lemma OutcomeIsUnique(targets: seq<seq<int>>, input: seq<int>, s: seq<int>, f: int, s': seq<int>, f': int)
    requires s <= input && Outcome(targets, s, f) && (f < 0 ==> s == input)
    requires s' <= input && Outcome(targets, s', f') && (f' < 0 ==> s' == input)
    ensures s == s' && f == f'
  {
    assert |s| <= |s'| ==> s'[..|s|] == s;
    assert |s'| <= |s| ==> s[..|s'|] == s';
  }

  class Stream {
    var rest: seq<u8>  // what will still arrive before a read times out

    constructor (input: seq<u8>)
      ensures rest == input
    {
      rest := input;
    }

    method TimedRead() returns (c: int)
      modifies this
      ensures if old(rest) == [] then c == -1 && rest == [] else c == old(rest)[0] && rest == old(rest)[1..]
    {
      if rest == [] {
        c := -1;
      } else {
        c, rest := rest[0], rest[1..];
      }
    }

    method TimedPeek() returns (c: int)
      ensures c == if rest == [] then -1 else rest[0]
    {
      c := if rest == [] then -1 else rest[0];
    }

    /** The walk back after a mismatch, without a failure table. */
    static method WalkBack(t: seq<int>, k: nat, c: int) returns (index: nat)
      requires 0 < k < |t|
      ensures index <= k && (index > 0 ==> Reusable(t, k, c, index))
      ensures forall j :: index < j <= k ==> !Reusable(t, k, c, j)
    {
      index := k;
      while true
        invariant 0 < index <= k
        invariant forall j :: index < j <= k ==> !Reusable(t, k, c, j)
        decreases index
      {
        index := index - 1;
        if c == t[index] {
          if index == 0 {
            index := 1;
            break;
          }
          var diff := k - index;
          var i := 0;
          while i < index && t[i] == t[i + diff]
            invariant 0 <= i <= index
            invariant forall n :: 0 <= n < i ==> t[n] == t[n + diff]
          {
            i := i + 1;
          }
          if i == index {
            index := index + 1;
            break;
          }
          assert !Reusable(t, k, c, index + 1) by { assert t[i] != t[i + k - (index + 1) + 1]; }
        }
        if index == 0 { break; }
      }
    }

    /** Feeds one character to one target; says whether it completes it. */
    static method Advance(t: seq<int>, index: nat, ghost s: seq<int>, c: int) returns (index': nat, done: bool)
      requires Longest(t, s, index)
      ensures done <==> EndsWith(s + [c], t)
      ensures if done then index' == |t| else Longest(t, s + [c], index')
    {
      if c == t[index] {
        MatchStep(t, s, index, c);
        index' := index + 1;
        done := index' == |t|;
        return;
      }
      done := false;
      if index == 0 {
        index' := 0;
        MismatchStep(t, s, index, c, 0);
      } else {
        index' := WalkBack(t, index, c);
        MismatchStep(t, s, index, c, index');
      }
    }

    /** Reads until some target has been read, or until a timeout. The targets'
        indices start at zero, as every caller passes them. */
    method FindMulti(targets: seq<seq<int>>, index: array<nat>) returns (found: int, ghost s: seq<int>)
      requires index.Length == |targets| && forall i :: 0 <= i < index.Length ==> index[i] == 0
      modifies this, index
      ensures s + rest == old(rest) && Outcome(targets, s, found)
      ensures found < 0 ==> rest == [] && Tracked(targets, index[..], s, 0, |targets|)
      ensures found >= 0 ==> index[found] == |targets[found]| && Tracked(targets, index[..], s, 0, found)
      ensures found >= 0 && s != [] ==> Tracked(targets, index[..], s[..|s| - 1], found + 1, |targets|)
    {
      s := [];
      for i := 0 to |targets|
        invariant NoneEnds(targets, [], i)
        invariant Tracked(targets, index[..], [], 0, i)
        invariant rest == old(rest) && index[..] == old(index[..])
      {
        if |targets[i]| == 0 {
          return i, [];
        }
      }

      while true
        invariant s + rest == old(rest)
        invariant Tracked(targets, index[..], s, 0, |targets|)
        invariant forall m :: 0 <= m <= |s| ==> NoneEnds(targets, s[..m], |targets|)
        decreases |rest|
      {
        assert s[..|s|] == s;
        ghost var before := rest;
        var c := TimedRead();
        if c < 0 {
          return -1, s;
        }
        assert before == [c] + rest;
        ghost var s' := s + [c];
        assert forall m :: 0 <= m <= |s| ==> s'[..m] == s[..m];
        assert s'[..|s'|] == s' && s' + rest == s + before;
        found := Feed(targets, index, s, c);
        if found >= 0 {
          return found, s';
        }
        s := s';
      }
    }

    /** Feeds one character to the targets in turn, up to the first that it completes. */
    static method Feed(targets: seq<seq<int>>, index: array<nat>, ghost s: seq<int>, c: int) returns (found: int)
      requires index.Length == |targets| && Tracked(targets, index[..], s, 0, |targets|)
      modifies index
      ensures -1 <= found < |targets|
      ensures found < 0 ==> NoneEnds(targets, s + [c], |targets|) && Tracked(targets, index[..], s + [c], 0, |targets|)
      ensures found >= 0 ==>
                && EndsWith(s + [c], targets[found]) && NoneEnds(targets, s + [c], found)
                && index[found] == |targets[found]|
                && Tracked(targets, index[..], s + [c], 0, found)
                && Tracked(targets, index[..], s, found + 1, |targets|)
    {
      for i := 0 to |targets|
        invariant Tracked(targets, index[..], s + [c], 0, i)
        invariant Tracked(targets, index[..], s, i, |targets|)
        invariant NoneEnds(targets, s + [c], i)
      {
        var k, done := Advance(targets[i], index[i], s, c);
        index[i] := k;
        if done {
          return i;
        }
      }
      found := -1;
    }

    /** True exactly when the target is read no later than the terminator. No terminator
        (the empty list) stands for the source's NULL. */
    method FindUntil(target: seq<int>, terminator: seq<seq<int>>) returns (ok: bool)
      requires |terminator| <= 1
      modifies this
      ensures ok <==> exists n :: 0 <= n <= |old(rest)| && EndsWith(old(rest)[..n], target) &&
                        (|terminator| == 1 ==> forall m :: 0 <= m < n ==> !EndsWith(old(rest)[..m], terminator[0]))
    {
      var index := new nat[1 + |terminator|](_ => 0);
      var found, s := FindMulti([target] + terminator, index);
      ok := found == 0;
      assert old(rest)[..|s|] == s;
      assert forall m :: 0 <= m <= |s| ==> old(rest)[..m] == s[..m];
      assert s[..|s|] == s;
      var all := [target] + terminator;
      assert all[0] == target && (|terminator| == 1 ==> all[1] == terminator[0]);
      if found != 0 {
        forall n | 0 <= n <= |old(rest)| && EndsWith(old(rest)[..n], target)
          ensures |terminator| == 1 && exists m :: 0 <= m < n && EndsWith(old(rest)[..m], terminator[0])
        {
          assert found >= 0 ==> n > |s| && EndsWith(old(rest)[..|s|], terminator[0]);
        }
      }
    }
  }
}
