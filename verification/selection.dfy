/**
 The item selection of the collect-point form: a sequence of item ids that is
 used as a set. Clicking an item toggles it: an id that is not selected is
 appended at the end, an id that is selected is filtered out.
 */
module Selection {

  /** No id occurs twice. */
  ghost predicate NoDup(s: seq<int>) {
    forall i, j :: 0 <= i < j < |s| ==> s[i] != s[j]
  }

  /** The ids of `s`, forgetting order and multiplicity. */
  ghost function Elements(s: seq<int>): set<int> {
    set y | y in s
  }

  /** `r` is obtained from `s` by deleting some elements, keeping the order of the rest. */
  ghost predicate IsSubsequence(r: seq<int>, s: seq<int>)
    decreases |s|
  {
    r == [] ||
    (s != [] &&
     ((r[0] == s[0] && IsSubsequence(r[1..], s[1..])) || IsSubsequence(r, s[1..])))
  }

  /** Array.prototype.findIndex with strict equality: the first position of
      `x` in `s`, or -1 when `x` does not occur. */
  function FindIndex(s: seq<int>, x: int): (r: int)
    ensures -1 <= r < |s|
    ensures r == -1 <==> x !in s
    ensures 0 <= r ==> s[r] == x && forall j :: 0 <= j < r ==> s[j] != x
  {
    if s == [] then -1
    else if s[0] == x then 0
    else
      var k := FindIndex(s[1..], x);
      if k == -1 then -1 else k + 1
  }

  /** Array.prototype.filter keeping the elements different from `x`. */
  function Remove(s: seq<int>, x: int): (r: seq<int>)
    ensures x !in r
    ensures forall y :: y in r <==> y in s && y != x
    ensures forall y :: y != x ==> multiset(r)[y] == multiset(s)[y]
    ensures IsSubsequence(r, s)
    ensures |r| <= |s|
  {
    if s == [] then []
    else
      assert s == [s[0]] + s[1..];
      var rest := Remove(s[1..], x);
      if s[0] == x then
        assert IsSubsequence(rest, s);
        rest
      else
        var r := [s[0]] + rest;
        assert r[1..] == rest;
        r
  }

  /** The click handler on an item: remove `x` if it is selected, append it otherwise. */
  function Toggle(s: seq<int>, x: int): (r: seq<int>)
    ensures x in r <==> x !in s
    ensures forall y :: y != x ==> (y in r <==> y in s)
    ensures Elements(r) == if x in s then Elements(s) - {x} else Elements(s) + {x}
  {
    if FindIndex(s, x) >= 0 then Remove(s, x) else s + [x]
  }

  /** Toggling an absent id appends it as the last element and keeps the others in place. */
  lemma ToggleAbsentAppends(s: seq<int>, x: int)
    requires x !in s
    ensures |Toggle(s, x)| == |s| + 1
    ensures Toggle(s, x)[..|s|] == s
    ensures Toggle(s, x)[|s|] == x
  {
  }

  /** Toggling a present id deletes every occurrence of it, and only those,
      keeping the order of the remaining ids. */
  lemma TogglePresentRemoves(s: seq<int>, x: int)
    requires x in s
    ensures x !in Toggle(s, x)
    ensures IsSubsequence(Toggle(s, x), s)
    ensures forall y :: y != x ==> multiset(Toggle(s, x))[y] == multiset(s)[y]
    ensures |Toggle(s, x)| == |s| - multiset(s)[x]
  {
    RemoveLength(s, x);
  }

  lemma {:induction false} RemoveLength(s: seq<int>, x: int)
    ensures |Remove(s, x)| == |s| - multiset(s)[x]
  {
    if s != [] {
      assert s == [s[0]] + s[1..];
      RemoveLength(s[1..], x);
    }
  }

  /** A subsequence of a sequence without duplicates has no duplicates either. */
  lemma {:induction false} SubsequenceNoDup(r: seq<int>, s: seq<int>)
    requires IsSubsequence(r, s)
    requires NoDup(s)
    ensures NoDup(r)
    decreases |s|
  {
    if r != [] {
      assert s != [];
      assert NoDup(s[1..]) by {
        forall i, j | 0 <= i < j < |s[1..]| ensures s[1..][i] != s[1..][j] {
          assert s[1..][i] == s[i + 1] && s[1..][j] == s[j + 1];
        }
      }
      if r[0] == s[0] && IsSubsequence(r[1..], s[1..]) {
        SubsequenceNoDup(r[1..], s[1..]);
        SubsequenceElements(r[1..], s[1..]);
        assert s[0] !in s[1..] by {
          forall k | 0 <= k < |s[1..]| ensures s[1..][k] != s[0] {
            assert s[1..][k] == s[k + 1];
          }
        }
        forall i, j | 0 <= i < j < |r| ensures r[i] != r[j] {
          if i == 0 {
            assert r[j] == r[1..][j - 1];
            assert r[j] in s[1..];
          } else {
            assert r[i] == r[1..][i - 1] && r[j] == r[1..][j - 1];
          }
        }
      } else {
        SubsequenceNoDup(r, s[1..]);
      }
    }
  }

  /** A subsequence takes each element at most as often as the sequence has it. */
  lemma {:induction false} SubsequenceMultiset(r: seq<int>, s: seq<int>)
    ensures IsSubsequence(r, s) ==> multiset(r) <= multiset(s)
    decreases |s|
  {
    if r != [] && IsSubsequence(r, s) {
      assert s == [s[0]] + s[1..];
      if r[0] == s[0] && IsSubsequence(r[1..], s[1..]) {
        SubsequenceMultiset(r[1..], s[1..]);
        assert r == [r[0]] + r[1..];
      } else {
        SubsequenceMultiset(r, s[1..]);
      }
    }
  }

  /** The contract of `Remove` pins its result down: any order-preserving
      selection from `s` that drops exactly the occurrences of `x` is `Remove(s, x)`. */
  lemma {:induction false} RemoveUnique(s: seq<int>, x: int, r: seq<int>)
    requires IsSubsequence(r, s)
    requires x !in r
    requires forall y :: y != x ==> multiset(r)[y] == multiset(s)[y]
    ensures r == Remove(s, x)
    decreases |s|
  {
    if s == [] {
    } else {
      assert s == [s[0]] + s[1..];
      if r == [] {
        var t := Remove(s, x);
        forall y ensures multiset(t)[y] == 0 {
          if y != x {
            assert multiset(s)[y] == multiset(r)[y];
          }
        }
        assert multiset(t) == multiset{};
        assert |t| == |multiset(t)|;
      } else if s[0] == x {
        assert r[0] != s[0];
        RemoveUnique(s[1..], x, r);
      } else {
        // `r` cannot skip `s[0]`: it holds one more copy of it than `s[1..]` does
        SubsequenceMultiset(r, s[1..]);
        assert multiset(r)[s[0]] == multiset(s[1..])[s[0]] + 1;
        assert !IsSubsequence(r, s[1..]);
        assert r[0] == s[0] && IsSubsequence(r[1..], s[1..]);
        assert r == [r[0]] + r[1..];
        forall y | y != x ensures multiset(r[1..])[y] == multiset(s[1..])[y] {
          assert multiset(r)[y] == multiset([r[0]])[y] + multiset(r[1..])[y];
        }
        RemoveUnique(s[1..], x, r[1..]);
      }
    }
  }

  /** Every element of a subsequence is an element of the sequence. */
  lemma {:induction false} SubsequenceElements(r: seq<int>, s: seq<int>)
    requires IsSubsequence(r, s)
    ensures forall y :: y in r ==> y in s
    decreases |s|
  {
    if r != [] {
      if r[0] == s[0] && IsSubsequence(r[1..], s[1..]) {
        SubsequenceElements(r[1..], s[1..]);
        assert r == [r[0]] + r[1..];
        assert s == [s[0]] + s[1..];
      } else {
        SubsequenceElements(r, s[1..]);
        assert s == [s[0]] + s[1..];
      }
    }
  }

  /** Toggle keeps the selection free of duplicates. */
  lemma ToggleKeepsNoDup(s: seq<int>, x: int)
    ensures NoDup(s) ==> NoDup(Toggle(s, x))
  {
    if !NoDup(s) {
    } else if x in s {
      SubsequenceNoDup(Remove(s, x), s);
    } else {
      var r := s + [x];
      forall i, j | 0 <= i < j < |r| ensures r[i] != r[j] {
        if j == |s| {
          assert r[i] == s[i];
        } else {
          assert r[i] == s[i] && r[j] == s[j];
        }
      }
    }
  }

  /** Toggling an absent id twice gives back exactly the original sequence. */
  lemma ToggleAbsentTwice(s: seq<int>, x: int)
    requires x !in s
    ensures Toggle(Toggle(s, x), x) == s
  {
    var t := s + [x];
    assert Toggle(s, x) == t;
    assert x in t;
    RemoveAppended(s, x);
  }

  /** Filtering out `x` after appending it to a sequence without `x` undoes the append. */
  lemma {:induction false} RemoveAppended(s: seq<int>, x: int)
    requires x !in s
    ensures Remove(s + [x], x) == s
  {
    if s == [] {
      assert [] + [x] == [x];
      assert [x][1..] == [];
    } else {
      assert (s + [x])[0] == s[0];
      assert (s + [x])[1..] == s[1..] + [x];
      RemoveAppended(s[1..], x);
      assert s == [s[0]] + s[1..];
    }
  }

  /** Toggling a present id twice gives back the same set of ids, with that id
      now the last element. */
  lemma TogglePresentTwice(s: seq<int>, x: int)
    requires x in s
    ensures Toggle(Toggle(s, x), x) == Remove(s, x) + [x]
    ensures Elements(Toggle(Toggle(s, x), x)) == Elements(s)
  {
  }

  /** Without duplicates, toggling a present id twice only moves it to the end:
      the multiset of ids is unchanged. */
  lemma TogglePresentTwiceMultiset(s: seq<int>, x: int)
    requires x in s
    requires NoDup(s)
    ensures multiset(Toggle(Toggle(s, x), x)) == multiset(s)
  {
    var t := Remove(s, x);
    assert Toggle(s, x) == t;
    NoDupCount(s, x);
    var u := t + [x];
    assert Toggle(t, x) == u;
    forall y ensures multiset(u)[y] == multiset(s)[y] {
      if y == x {
        assert multiset(u)[x] == multiset(t)[x] + 1;
        assert x !in multiset(t);
      }
    }
    assert multiset(u) == multiset(s);
  }

  /** In a sequence without duplicates an element occurs exactly once. */
  lemma {:induction false} NoDupCount(s: seq<int>, x: int)
    requires NoDup(s)
    requires x in s
    ensures multiset(s)[x] == 1
  {
    assert s == [s[0]] + s[1..];
    assert s[0] !in s[1..] by {
      forall k | 0 <= k < |s[1..]| ensures s[1..][k] != s[0] {
        assert s[1..][k] == s[k + 1];
      }
    }
    if s[0] != x {
      assert NoDup(s[1..]) by {
        forall i, j | 0 <= i < j < |s[1..]| ensures s[1..][i] != s[1..][j] {
          assert s[1..][i] == s[i + 1] && s[1..][j] == s[j + 1];
        }
      }
      NoDupCount(s[1..], x);
    }
  }

  /** The order of two clicks changes the order of the sequence but not the selected set. */
  lemma ToggleCommutesAsSets(s: seq<int>, a: int, b: int)
    ensures Elements(Toggle(Toggle(s, a), b)) == Elements(Toggle(Toggle(s, b), a))
  {
  }
}
