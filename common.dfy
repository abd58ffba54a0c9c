/**
 * Engine-level vocabulary shared by every component of the spell system:
 * optional values, FNames, gameplay tags and their hierarchical matching,
 * actor identities, GUIDs and a decimal rendering of integers.
 */
module Common {

  datatype Option<T> = None | Some(value: T)

  /** An FName; the empty string stands for NAME_None. */
  type Name = string

  const NoName: Name := ""

  /**
   * A gameplay tag, identified by its dotted name ("Spell.Start").
   * The empty name is the invalid (default) tag.
   */
  datatype Tag = Tag(name: string) {
    predicate IsValid() { name != "" }
  }

  const InvalidTag: Tag := Tag("")

  predicate IsPrefix(p: string, s: string) {
    |p| <= |s| && s[..|p|] == p
  }

  /** Does `sub` occur somewhere inside `s` (FString::Contains)? */
  predicate ContainsSub(s: string, sub: string) {
    exists k :: 0 <= k <= |s| && IsPrefix(sub, s[k..])
  }

  /** ASCII lower-casing, the folding FString's default case-insensitive search applies. */
  function LowerChar(c: char): (r: char)
    ensures 'A' <= c <= 'Z' ==> r != c && 'a' <= r <= 'z'
    ensures !('A' <= c <= 'Z') ==> r == c
  {
    if 'A' <= c <= 'Z' then (c as int + 32) as char else c
  }

  function Lower(s: string): (r: string)
    ensures |r| == |s| && forall k :: 0 <= k < |s| ==> r[k] == LowerChar(s[k])
  {
    if |s| == 0 then [] else Lower(s[..|s| - 1]) + [LowerChar(s[|s| - 1])]
  }

  /** FString::StartsWith with the default ignore-case search. */
  predicate StartsWithNoCase(s: string, p: string) {
    IsPrefix(Lower(p), Lower(s))
  }

  /** FString::Contains with the default ignore-case search. */
  predicate ContainsNoCase(s: string, sub: string) {
    ContainsSub(Lower(s), Lower(sub))
  }

  /** Ignoring case only widens the prefix test. */
  lemma PrefixIgnoringCase(p: string, s: string)
    requires IsPrefix(p, s)
    ensures StartsWithNoCase(s, p)
  {
    var lp, ls := Lower(p), Lower(s);
    assert forall k :: 0 <= k < |lp| ==> ls[k] == lp[k];
  }

  /** An exact occurrence at position k is also an occurrence ignoring case. */
  lemma ContainsIgnoringCase(s: string, sub: string, k: nat)
    requires k <= |s| && IsPrefix(sub, s[k..])
    ensures ContainsNoCase(s, sub)
  {
    var ls, lsub := Lower(s), Lower(sub);
    assert forall j :: 0 <= j < |lsub| ==> ls[k..][j] == lsub[j];
    assert IsPrefix(lsub, ls[k..]);
  }

  /** One position where the folded characters differ rules out a case-insensitive prefix. */
  lemma NotPrefixIgnoringCase(s: string, p: string, i: nat)
    requires i < |p| && i < |s| && LowerChar(s[i]) != LowerChar(p[i])
    ensures !StartsWithNoCase(s, p)
  {
    if |p| <= |s| {
      assert Lower(s)[..|p|][i] != Lower(p)[i];
    }
  }

  /**
   * FGameplayTag::MatchesTag: `t` is `root` itself or a descendant of it
   * ("A.B.C" matches "A.B" and "A"); both tags must be valid.
   */
  predicate MatchesTag(t: Tag, root: Tag) {
    t.IsValid() && root.IsValid() && (t == root || IsPrefix(root.name + ".", t.name))
  }

  /** FGameplayTagContainer::HasTag: some member of `c` matches `t` hierarchically. */
  predicate HasTag(c: seq<Tag>, t: Tag) {
    t.IsValid() && exists x :: x in c && MatchesTag(x, t)
  }

  /** FGameplayTagContainer::HasTagExact. */
  predicate HasTagExact(c: seq<Tag>, t: Tag) {
    t.IsValid() && t in c
  }

  lemma MatchesTagReflexive(t: Tag)
    requires t.IsValid()
    ensures MatchesTag(t, t)
  {
  }

  /**
   * An actor is identified by its GetUniqueID value, which is unique per
   * live object; a null or stale pointer is `None`.
   */
  type ActorId = nat

  /** A world-space vector; the math on it is left abstract. */
  datatype Vec = Vec(x: real, y: real, z: real)

  const ZeroVec: Vec := Vec(0.0, 0.0, 0.0)

  /** FGuid, valid iff some component is non-zero. */
  datatype Guid = Guid(a: int, b: int, c: int, d: int) {
    predicate IsValid() { a != 0 || b != 0 || c != 0 || d != 0 }
  }

  const InvalidGuid: Guid := Guid(0, 0, 0, 0)

  function Max(a: real, b: real): (r: real)
    ensures r >= a && r >= b && (r == a || r == b)
  {
    if a >= b then a else b
  }

  function Min(a: real, b: real): (r: real)
    ensures r <= a && r <= b && (r == a || r == b)
  {
    if a <= b then a else b
  }

  function Clamp(x: real, lo: real, hi: real): (r: real)
    requires lo <= hi
    ensures lo <= r <= hi
    ensures lo <= x <= hi ==> r == x
  {
    if x < lo then lo else if x > hi then hi else x
  }

  function IntClamp(x: int, lo: int, hi: int): (r: int)
    requires lo <= hi
    ensures lo <= r <= hi
    ensures lo <= x <= hi ==> r == x
  {
    if x < lo then lo else if x > hi then hi else x
  }

  function IntMax(a: int, b: int): (r: int)
    ensures r >= a && r >= b && (r == a || r == b)
  {
    if a >= b then a else b
  }

  function IntMin(a: int, b: int): (r: int)
    ensures r <= a && r <= b && (r == a || r == b)
  {
    if a <= b then a else b
  }

  /** FMath::IsNearlyZero with its default tolerance UE_SMALL_NUMBER (1e-8). */
  predicate IsNearlyZero(x: real) {
    -0.00000001 <= x <= 0.00000001
  }

  function DigitChar(d: nat): (c: char)
    requires d < 10
    ensures '0' <= c <= '9'
    ensures c as int - '0' as int == d
  {
    ['0', '1', '2', '3', '4', '5', '6', '7', '8', '9'][d]
  }

  /** Decimal digits of a natural number, without leading zeros. */
  function NatToString(n: nat): (s: string)
    ensures |s| >= 1
    ensures IsDigits(s)
    ensures |s| > 1 ==> s[0] != '0'
    decreases n
  {
    if n < 10 then [DigitChar(n)] else NatToString(n / 10) + [DigitChar(n % 10)]
  }

  predicate IsDigits(s: string) {
    forall i :: 0 <= i < |s| ==> '0' <= s[i] <= '9'
  }

  /** The number a string of decimal digits denotes. */
  function DigitsValue(s: string): nat
    requires IsDigits(s)
  {
    if |s| == 0 then 0
    else DigitsValue(s[..|s| - 1]) * 10 + (s[|s| - 1] as int - '0' as int)
  }

  /** Reading the digits back gives the number: the rendering loses nothing. */
  lemma {:induction false} NatToStringRoundTrip(n: nat)
    ensures DigitsValue(NatToString(n)) == n
    decreases n
  {
    if n >= 10 {
      NatToStringRoundTrip(n / 10);
      var s := NatToString(n);
      assert s[..|s| - 1] == NatToString(n / 10);
    }
  }

  /** The "%d" rendering of an integer. */
  function IntToString(i: int): (s: string)
    ensures |s| >= 1
    ensures i >= 0 <==> '0' <= s[0] <= '9'
  {
    if i < 0 then "-" + NatToString(-i) else NatToString(i)
  }

  /** Lexicographic order on names (FName::LexicalLess, without case folding). */
  predicate NameLess(a: Name, b: Name)
    decreases |a|
  {
    if |a| == 0 then |b| > 0
    else if |b| == 0 then false
    else if a[0] != b[0] then a[0] < b[0]
    else NameLess(a[1..], b[1..])
  }

  lemma {:induction false} NameLessIrreflexive(a: Name)
    ensures !NameLess(a, a)
    decreases |a|
  {
    if |a| > 0 {
      assert a[1..] == a[1..];
      NameLessIrreflexive(a[1..]);
    }
  }

  lemma {:induction false} NameLessTotal(a: Name, b: Name)
    ensures a == b || NameLess(a, b) || NameLess(b, a)
    decreases |a|
  {
    if |a| > 0 && |b| > 0 && a[0] == b[0] {
      NameLessTotal(a[1..], b[1..]);
      if a[1..] == b[1..] {
        assert a == [a[0]] + a[1..] && b == [b[0]] + b[1..];
      }
    }
  }

  lemma {:induction false} NameLessTransitive(a: Name, b: Name, c: Name)
    requires NameLess(a, b) && NameLess(b, c)
    ensures NameLess(a, c)
    decreases |a|
  {
    if |a| > 0 && |b| > 0 && |c| > 0 && a[0] == b[0] && b[0] == c[0] {
      NameLessTransitive(a[1..], b[1..], c[1..]);
    }
  }

  lemma SwapPartsMultiset<T>(pre: seq<T>, x: T, mid: seq<T>, y: T)
    ensures multiset(pre + [y] + mid) == multiset(pre + [x] + mid + [y]) - multiset{x}
  {
    assert multiset(pre + [x] + mid + [y]) == multiset(pre) + multiset{x} + multiset(mid) + multiset{y};
    assert multiset(pre + [y] + mid) == multiset(pre) + multiset{y} + multiset(mid);
  }

  /**
   * TArray::RemoveAtSwap: the last element moves into slot `i`, so the
   * order after `i` is not kept.
   */
  function RemoveAtSwap<T>(s: seq<T>, i: nat): (r: seq<T>)
    requires i < |s|
    ensures |r| == |s| - 1
    ensures r[..i] == s[..i]
    ensures forall k :: 0 <= k < |r| ==> r[k] == s[if k == i then |s| - 1 else k]
    ensures multiset(r) == multiset(s) - multiset{s[i]}
  {
    if i == |s| - 1 then
      assert s == s[..i] + [s[i]];
      s[..i]
    else
      MoveLastInto(s, i)
  }

  /** RemoveAtSwap below the last slot: `s[i]` is overwritten by the last element, which is dropped. */
  function MoveLastInto<T>(s: seq<T>, i: nat): (r: seq<T>)
    requires i < |s| - 1
    ensures |r| == |s| - 1
    ensures r[..i] == s[..i]
    ensures forall k :: 0 <= k < |r| ==> r[k] == s[if k == i then |s| - 1 else k]
    ensures multiset(r) == multiset(s) - multiset{s[i]}
  {
    MoveLastIndices(s, i);
    MoveLastMultiset(s, i);
    s[..i] + [s[|s| - 1]] + s[i + 1..|s| - 1]
  }

  lemma MoveLastIndices<T>(s: seq<T>, i: nat)
    requires i < |s| - 1
    ensures var r := s[..i] + [s[|s| - 1]] + s[i + 1..|s| - 1];
      |r| == |s| - 1 && r[..i] == s[..i] &&
      forall k :: 0 <= k < |r| ==> r[k] == s[if k == i then |s| - 1 else k]
  {
    var pre, mid := s[..i], s[i + 1..|s| - 1];
    var r := pre + [s[|s| - 1]] + mid;
    assert r[..i] == pre;
    assert forall k :: 0 <= k < i ==> r[k] == pre[k];
    assert forall k :: i < k < |r| ==> r[k] == mid[k - i - 1];
  }

  lemma MoveLastMultiset<T>(s: seq<T>, i: nat)
    requires i < |s| - 1
    ensures multiset(s[..i] + [s[|s| - 1]] + s[i + 1..|s| - 1]) == multiset(s) - multiset{s[i]}
  {
    var pre, mid := s[..i], s[i + 1..|s| - 1];
    assert s[i + 1..] == mid + [s[|s| - 1]];
    assert s[i..] == [s[i]] + s[i + 1..];
    assert s == pre + s[i..];
    assert s == pre + [s[i]] + mid + [s[|s| - 1]];
    SwapPartsMultiset(pre, s[i], mid, s[|s| - 1]);
  }

  /** The order-preserving removal of every element failing `keep` (TArray::RemoveAll of the complement). */
  function Filter<T(==)>(s: seq<T>, keep: T -> bool): (r: seq<T>)
    ensures |r| <= |s|
    ensures forall k :: 0 <= k < |r| ==> keep(r[k]) && r[k] in s
    ensures forall k :: 0 <= k < |s| && keep(s[k]) ==> s[k] in r
    ensures IsSubsequence(r, s)
  {
    if |s| == 0 then []
    else if keep(s[0]) then [s[0]] + Filter(s[1..], keep)
    else Filter(s[1..], keep)
  }

  /** Filter keeps every copy of a kept element and no copy of any other: the multiplicities of RemoveAll. */
  lemma {:induction false} FilterCounts<T>(s: seq<T>, keep: T -> bool)
    ensures forall x :: multiset(Filter(s, keep))[x] == if keep(x) then multiset(s)[x] else 0
    decreases |s|
  {
    if |s| > 0 {
      assert s == [s[0]] + s[1..];
      FilterCounts(s[1..], keep);
    }
  }

  /** Filtering by two predicates in turn is filtering by their conjunction. */
  lemma {:induction false} FilterTwice<T>(s: seq<T>, p: T -> bool, q: T -> bool, both: T -> bool)
    requires forall x :: both(x) == (p(x) && q(x))
    ensures Filter(Filter(s, p), q) == Filter(s, both)
    decreases |s|
  {
    if |s| > 0 {
      FilterTwice(s[1..], p, q, both);
    }
  }

  /** Filter depends only on the values of its predicate. */
  lemma {:induction false} FilterSame<T>(s: seq<T>, p: T -> bool, q: T -> bool)
    requires forall x :: p(x) == q(x)
    ensures Filter(s, p) == Filter(s, q)
    decreases |s|
  {
    if |s| > 0 {
      FilterSame(s[1..], p, q);
    }
  }

  /** Filtering a concatenation filters each part. */
  lemma {:induction false} FilterAppend<T>(a: seq<T>, b: seq<T>, keep: T -> bool)
    ensures Filter(a + b, keep) == Filter(a, keep) + Filter(b, keep)
    decreases |a|
  {
    if |a| > 0 {
      assert (a + b)[0] == a[0];
      assert (a + b)[1..] == a[1..] + b;
      FilterAppend(a[1..], b, keep);
    } else {
      assert a + b == b;
    }
  }

  /** A predicate that keeps every element keeps the whole sequence. */
  lemma {:induction false} FilterKeepsAll<T>(s: seq<T>, keep: T -> bool)
    requires forall k :: 0 <= k < |s| ==> keep(s[k])
    ensures Filter(s, keep) == s
    decreases |s|
  {
    if |s| > 0 {
      FilterKeepsAll(s[1..], keep);
    }
  }

  /** Filtering one more element at the end appends it when it is kept. */
  lemma {:induction false} FilterSnoc<T>(s: seq<T>, x: T, keep: T -> bool)
    ensures Filter(s + [x], keep) == Filter(s, keep) + (if keep(x) then [x] else [])
    decreases |s|
  {
    if |s| == 0 {
      assert s + [x] == [x];
      assert [x][1..] == [];
    } else {
      assert (s + [x])[0] == s[0];
      assert (s + [x])[1..] == s[1..] + [x];
      FilterSnoc(s[1..], x, keep);
    }
  }

  /** `r` can be obtained from `s` by deleting elements, keeping the order of the rest. */
  predicate IsSubsequence<T(==)>(r: seq<T>, s: seq<T>)
    decreases |s|
  {
    if |r| == 0 then true
    else if |s| == 0 then false
    else if r[0] == s[0] then IsSubsequence(r[1..], s[1..])
    else IsSubsequence(r, s[1..])
  }

  lemma {:induction false} SubsequenceTransitive<T>(a: seq<T>, b: seq<T>, c: seq<T>)
    requires IsSubsequence(a, b) && IsSubsequence(b, c)
    ensures IsSubsequence(a, c)
    decreases |c|
  {
    if |a| == 0 {
    } else if b[0] == c[0] {
      if a[0] == b[0] {
        SubsequenceTransitive(a[1..], b[1..], c[1..]);
      } else {
        SubsequenceTransitive(a, b[1..], c[1..]);
        assert a[0] != c[0];
      }
    } else {
      SubsequenceTransitive(a, b, c[1..]);
      if a[0] == c[0] {
        SubsequenceDropFirst(a, c[1..]);
      }
    }
  }

  lemma {:induction false} SubsequenceDropFirst<T>(a: seq<T>, c: seq<T>)
    requires |a| > 0 && IsSubsequence(a, c)
    ensures IsSubsequence(a[1..], c)
    decreases |c|, 0
  {
    if a[0] == c[0] {
      SubsequenceSkip(a[1..], c[1..], c[0]);
      assert c == [c[0]] + c[1..];
    } else {
      SubsequenceDropFirst(a, c[1..]);
      SubsequenceSkip(a[1..], c[1..], c[0]);
      assert c == [c[0]] + c[1..];
    }
  }

  /** A subsequence of `c` stays one when an element is put in front of `c`. */
  lemma {:induction false} SubsequenceSkip<T>(a: seq<T>, c: seq<T>, x: T)
    requires IsSubsequence(a, c)
    ensures IsSubsequence(a, [x] + c)
    decreases |c|, 1
  {
    if |a| > 0 && a[0] == x {
      assert ([x] + c)[1..] == c;
      SubsequenceDropFirst(a, c);
    } else {
      assert ([x] + c)[1..] == c;
    }
  }

  lemma {:induction false} SubsequenceReflexive<T>(s: seq<T>)
    ensures IsSubsequence(s, s)
  {
    if |s| > 0 {
      SubsequenceReflexive(s[1..]);
    }
  }

  lemma {:induction false} SubsequenceMembers<T>(r: seq<T>, s: seq<T>)
    requires IsSubsequence(r, s)
    ensures forall x :: x in r ==> x in s
    decreases |s|
  {
    if |r| > 0 {
      if r[0] == s[0] {
        SubsequenceMembers(r[1..], s[1..]);
        assert forall x :: x in r ==> x == r[0] || x in r[1..];
      } else {
        SubsequenceMembers(r, s[1..]);
      }
    }
  }

  lemma PrefixMultiset<T>(s: seq<T>, n: nat)
    requires n <= |s|
    ensures multiset(s[..n]) <= multiset(s)
  {
    assert s == s[..n] + s[n..];
  }

  /** No element occurs twice. */
  predicate NoDuplicates<T(==)>(s: seq<T>) {
    forall i, j :: 0 <= i < j < |s| ==> s[i] != s[j]
  }

  /** No duplicates means every element is counted at most once. */
  lemma {:induction false} NoDuplicatesMultiset<T>(s: seq<T>)
    ensures NoDuplicates(s) <==> forall x :: multiset(s)[x] <= 1
  {
    if |s| > 0 {
      var rest := s[1..];
      NoDuplicatesMultiset(rest);
      assert s == [s[0]] + rest;
      assert multiset(s) == multiset{s[0]} + multiset(rest);
      if NoDuplicates(s) {
        assert NoDuplicates(rest) by {
          forall i, j | 0 <= i < j < |rest| ensures rest[i] != rest[j] {
            assert rest[i] == s[i + 1] && rest[j] == s[j + 1];
          }
        }
        assert s[0] !in rest by {
          forall k | 0 <= k < |rest| ensures rest[k] != s[0] {
            assert rest[k] == s[k + 1];
          }
        }
      }
      if forall x :: multiset(s)[x] <= 1 {
        assert forall x :: multiset(rest)[x] <= 1 by {
          forall x ensures multiset(rest)[x] <= 1 {
            assert multiset(s)[x] <= 1;
          }
        }
        assert multiset(s)[s[0]] <= 1;
        assert s[0] !in multiset(rest);
        forall i, j | 0 <= i < j < |s| ensures s[i] != s[j] {
          if i == 0 {
            assert s[j] == rest[j - 1];
            assert s[j] in multiset(rest);
          } else {
            assert s[i] == rest[i - 1] && s[j] == rest[j - 1];
          }
        }
      }
    }
  }

  /** A permutation of a duplicate-free sequence is duplicate-free. */
  lemma PermutationNoDuplicates<T>(a: seq<T>, b: seq<T>)
    requires multiset(a) == multiset(b) && NoDuplicates(a)
    ensures NoDuplicates(b)
  {
    NoDuplicatesMultiset(a);
    NoDuplicatesMultiset(b);
  }
}
