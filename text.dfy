/**
 * String helpers shared by the models of the two build scripts and the pages:
 * ASCII case folding, character replacement, trimming, splitting at a
 * separator, first-occurrence search and replacement, ordinal string order,
 * and first-occurrence de-duplication.
 */
module Text {
  import opened Wrappers

  /** ASCII whitespace: space, tab, line feed, vertical tab, form feed, carriage return. */
  predicate IsSpace(c: char) {
    c == ' ' || 9 <= c as int <= 13
  }

  predicate IsUpper(c: char) {
    'A' <= c <= 'Z'
  }

  function LowerChar(c: char): (r: char)
    ensures !IsUpper(r)
    ensures !IsUpper(c) ==> r == c
    ensures IsUpper(c) ==> 'a' <= r <= 'z'
  {
    if IsUpper(c) then (c as int + 32) as char else c
  }

  /** Lowercasing of ASCII letters, as `str.lower()` and `toLowerCase()` do on ASCII text. */
  function Lower(s: string): (r: string)
    ensures |r| == |s|
    ensures forall i :: 0 <= i < |s| ==> r[i] == LowerChar(s[i])
  {
    if s == [] then [] else [LowerChar(s[0])] + Lower(s[1..])
  }

  predicate NoUpper(s: string) {
    forall i :: 0 <= i < |s| ==> !IsUpper(s[i])
  }

  lemma LowerOfNoUpper(s: string)
    requires NoUpper(s)
    ensures Lower(s) == s
  {
  }

  /** Lowercasing neither adds nor removes a character that is not a letter. */
  lemma LowerKeepsNonLetter(s: string, c: char)
    requires !IsUpper(c) && !('a' <= c <= 'z')
    ensures c in Lower(s) <==> c in s
  {
    if c in Lower(s) {
      var i :| 0 <= i < |s| && Lower(s)[i] == c;
      assert s[i] == c;
    }
    if c in s {
      var i :| 0 <= i < |s| && s[i] == c;
      assert Lower(s)[i] == c;
    }
  }

  /** Concatenation is associative. */
  lemma ConcatAssoc<T>(a: seq<T>, b: seq<T>, c: seq<T>)
    ensures a + (b + c) == (a + b) + c
  {
  }

  /** Every occurrence of `c` replaced by `rep`: `s.replace(c, rep)` with a one-character pattern. */
  function ReplaceChar(s: string, c: char, rep: string): (r: string)
    ensures c !in rep ==> c !in r
    ensures forall x :: x in r ==> (x in s && x != c) || x in rep
    ensures c !in s ==> r == s
    ensures rep == [] ==> |r| <= |s|
  {
    if s == [] then []
    else (if s[0] == c then rep else [s[0]]) + ReplaceChar(s[1..], c, rep)
  }

  lemma {:induction false} ReplaceCharConcat(a: string, b: string, c: char, rep: string)
    ensures ReplaceChar(a + b, c, rep) == ReplaceChar(a, c, rep) + ReplaceChar(b, c, rep)
  {
    if a == [] {
      assert a + b == b;
    } else {
      var h := if a[0] == c then rep else [a[0]];
      assert (a + b)[0] == a[0];
      assert (a + b)[1..] == a[1..] + b;
      ReplaceCharConcat(a[1..], b, c, rep);
      ConcatAssoc(h, ReplaceChar(a[1..], c, rep), ReplaceChar(b, c, rep));
    }
  }

  /** `s` without its longest prefix of characters satisfying `drop`. */
  function TrimLeft(s: string, drop: char -> bool): string {
    if s != [] && drop(s[0]) then TrimLeft(s[1..], drop) else s
  }

  /** What `TrimLeft` removes is a prefix of dropped characters, and what it keeps starts with a kept one. */
  lemma {:induction false} TrimLeftSpec(s: string, drop: char -> bool)
    ensures var r := TrimLeft(s, drop);
      && |r| <= |s| && r == s[|s| - |r|..]
      && (forall i :: 0 <= i < |s| - |r| ==> drop(s[i]))
      && (r != [] ==> !drop(r[0]))
  {
    if s != [] && drop(s[0]) {
      var t := s[1..];
      TrimLeftSpec(t, drop);
      var r := TrimLeft(t, drop);
      assert TrimLeft(s, drop) == r;
      assert r == s[|s| - |r|..] by {
        assert t[|t| - |r|..] == s[|s| - |r|..];
      }
      forall i | 0 <= i < |s| - |r| ensures drop(s[i]) {
        if i > 0 {
          assert s[i] == t[i - 1];
        }
      }
    }
  }

  /** `s` without its longest suffix of characters satisfying `drop`. */
  function TrimRight(s: string, drop: char -> bool): string {
    if s != [] && drop(s[|s| - 1]) then TrimRight(s[..|s| - 1], drop) else s
  }

  /** What `TrimRight` removes is a suffix of dropped characters, and what it keeps ends with a kept one. */
  lemma {:induction false} TrimRightSpec(s: string, drop: char -> bool)
    ensures var r := TrimRight(s, drop);
      && |r| <= |s| && r == s[..|r|]
      && (forall i :: |r| <= i < |s| ==> drop(s[i]))
      && (r != [] ==> !drop(r[|r| - 1]))
  {
    if s != [] && drop(s[|s| - 1]) {
      var t := s[..|s| - 1];
      TrimRightSpec(t, drop);
      var r := TrimRight(t, drop);
      assert TrimRight(s, drop) == r;
      assert r == s[..|r|] by {
        assert t[..|r|] == s[..|r|];
      }
      forall i | |r| <= i < |s| ensures drop(s[i]) {
        if i < |s| - 1 {
          assert s[i] == t[i];
        }
      }
    }
  }

  /** Python's `str.strip(chars)` and JavaScript's `trim()`: both ends trimmed. */
  function Trim(s: string, drop: char -> bool): string {
    TrimRight(TrimLeft(s, drop), drop)
  }

  /** The trimmed string is a part of `s`, has no dropped character at either end, and is empty only when every character is dropped. */
  lemma TrimSpec(s: string, drop: char -> bool)
    ensures var r := Trim(s, drop);
      && (r != [] ==> !drop(r[0]) && !drop(r[|r| - 1]))
      && (r == [] <==> forall i :: 0 <= i < |s| ==> drop(s[i]))
      && |r| <= |s|
      && (forall x :: x in r ==> x in s)
  {
    var l := TrimLeft(s, drop);
    var r := TrimRight(l, drop);
    TrimLeftSpec(s, drop);
    TrimRightSpec(l, drop);
    var off := |s| - |l|;
    forall k | 0 <= k < |r| ensures r[k] == s[off + k] {
      assert r[k] == l[k];
    }
    if r != [] {
      assert s[off] == r[0];
    }
    forall x | x in r ensures x in s {
      var k :| 0 <= k < |r| && r[k] == x;
      assert s[off + k] == x;
    }
  }

  /** Trimming removes exactly a dropped prefix and a dropped suffix around a kept core. */
  lemma {:induction false} TrimAround(pre: string, core: string, suf: string, drop: char -> bool)
    requires forall i :: 0 <= i < |pre| ==> drop(pre[i])
    requires forall i :: 0 <= i < |suf| ==> drop(suf[i])
    requires core != [] && !drop(core[0]) && !drop(core[|core| - 1])
    ensures Trim(pre + core + suf, drop) == core
  {
    TrimLeftPrefix(pre, core + suf, drop);
    assert pre + core + suf == pre + (core + suf);
    TrimRightSuffix(core, suf, drop);
  }

  lemma {:induction false} TrimLeftPrefix(pre: string, s: string, drop: char -> bool)
    requires forall i :: 0 <= i < |pre| ==> drop(pre[i])
    requires s != [] && !drop(s[0])
    ensures TrimLeft(pre + s, drop) == s
  {
    if pre != [] {
      assert (pre + s)[1..] == pre[1..] + s;
      TrimLeftPrefix(pre[1..], s, drop);
    }
  }

  lemma {:induction false} TrimRightSuffix(s: string, suf: string, drop: char -> bool)
    requires forall i :: 0 <= i < |suf| ==> drop(suf[i])
    requires s != [] && !drop(s[|s| - 1])
    ensures TrimRight(s + suf, drop) == s
    decreases |suf|
  {
    if suf == [] {
      assert s + suf == s;
    } else {
      assert (s + suf)[..|s + suf| - 1] == s + suf[..|suf| - 1];
      TrimRightSuffix(s, suf[..|suf| - 1], drop);
    }
  }

  /** The part after the last `c`, i.e. the last element of `s.split(c)`. */
  function AfterLast(s: string, c: char): string {
    if s == [] then []
    else if s[|s| - 1] == c then []
    else AfterLast(s[..|s| - 1], c) + [s[|s| - 1]]
  }

  /** `AfterLast` is the suffix after the last `c`: it has no `c`, and is all of `s` or follows a `c`. */
  lemma {:induction false} AfterLastSpec(s: string, c: char)
    ensures var r := AfterLast(s, c);
      && |r| <= |s| && r == s[|s| - |r|..]
      && c !in r
      && (|r| < |s| ==> s[|s| - |r| - 1] == c)
  {
    if s != [] && s[|s| - 1] != c {
      AfterLastSpec(s[..|s| - 1], c);
      AfterLastStep(s, c);
    }
  }

  /** Appending a character other than `c` extends the suffix after the last `c` by it. */
  lemma AfterLastStep(s: string, c: char)
    requires s != [] && s[|s| - 1] != c
    requires var init, r0 := s[..|s| - 1], AfterLast(s[..|s| - 1], c);
      && |r0| <= |init| && r0 == init[|init| - |r0|..] && c !in r0
      && (|r0| < |init| ==> init[|init| - |r0| - 1] == c)
    ensures var r := AfterLast(s, c);
      && |r| <= |s| && r == s[|s| - |r|..]
      && c !in r
      && (|r| < |s| ==> s[|s| - |r| - 1] == c)
  {
    var init, x := s[..|s| - 1], s[|s| - 1];
    var r0 := AfterLast(init, c);
    var r := r0 + [x];
    assert AfterLast(s, c) == r;
    var k := |init| - |r0|;
    assert s[k..] == init[k..] + [x];
    assert k > 0 ==> s[k - 1] == init[k - 1];
    assert c !in r by {
      assert forall y :: y in r ==> y in r0 || y == x;
    }
  }

  lemma {:induction false} AfterLastSplit(a: string, c: char, b: string)
    requires c !in b
    ensures AfterLast(a + [c] + b, c) == b
    decreases |b|
  {
    var s := a + [c] + b;
    if b == [] {
      assert s[|s| - 1] == c;
    } else {
      assert s[|s| - 1] == b[|b| - 1];
      assert s[..|s| - 1] == a + [c] + b[..|b| - 1];
      AfterLastSplit(a, c, b[..|b| - 1]);
      assert b == b[..|b| - 1] + [b[|b| - 1]];
    }
  }

  /** The part before the first `c`, i.e. the first element of `s.split(c)`. */
  function BeforeFirst(s: string, c: char): (r: string)
    ensures |r| <= |s| && r == s[..|r|]
    ensures c !in r
    ensures |r| < |s| ==> s[|r|] == c
  {
    if s == [] then []
    else if s[0] == c then []
    else [s[0]] + BeforeFirst(s[1..], c)
  }

  /** `BeforeFirst` stops at the first `c`. */
  lemma {:induction false} BeforeFirstSplit(a: string, c: char, b: string)
    requires c !in a
    ensures BeforeFirst(a + [c] + b, c) == a
  {
    if a != [] {
      assert (a + [c] + b)[1..] == a[1..] + [c] + b;
      BeforeFirstSplit(a[1..], c, b);
    }
  }

  lemma BeforeFirstAt(a: string, b: string, c: char)
    requires c !in a && b != [] && b[0] == c
    ensures BeforeFirst(a + b, c) == a
  {
    assert a + b == a + [c] + b[1..];
    BeforeFirstSplit(a, c, b[1..]);
  }

  /** Every occurrence of `c` deleted: JavaScript's `s.replace(/c/g, '')`. */
  function RemoveChar(s: string, c: char): (r: string)
    ensures c !in r
    ensures |r| <= |s|
    ensures forall x :: x in r ==> x in s
  {
    ReplaceChar(s, c, "")
  }

  /** Python's slice `s[:n]`. */
  function Take(s: string, n: nat): (r: string)
    ensures |r| == if |s| <= n then |s| else n
    ensures r == s[..|r|]
  {
    if |s| <= n then s else s[..n]
  }

  /** Each maximal run of whitespace replaced by one `-`: `s.replace(/\s+/g, '-')`. */
  function DashSpaces(s: string): string
    decreases |s|
  {
    if s == [] then []
    else if IsSpace(s[0]) then
      TrimLeftSpec(s, IsSpace);
      var t := TrimLeft(s, IsSpace);
      assert t == [] || t[0] != s[0];
      "-" + DashSpaces(t)
    else [s[0]] + DashSpaces(s[1..])
  }

  /**
   * The result has no whitespace, every character comes from `s` or is the
   * `-` put in for a run, and text without whitespace is left as it is.
   */
  lemma DashSpacesSpec(s: string)
    ensures forall i :: 0 <= i < |DashSpaces(s)| ==> !IsSpace(DashSpaces(s)[i])
    ensures forall i :: 0 <= i < |DashSpaces(s)| ==> DashSpaces(s)[i] in s || DashSpaces(s)[i] == '-'
    ensures (forall i :: 0 <= i < |s| ==> !IsSpace(s[i])) ==> DashSpaces(s) == s
  {
    DashSpacesNoSpace(s);
    DashSpacesChars(s);
    if forall i :: 0 <= i < |s| ==> !IsSpace(s[i]) {
      DashSpacesPrefix(s, |s|);
    }
  }

  lemma {:induction false} DashSpacesNoSpace(s: string)
    ensures forall i :: 0 <= i < |DashSpaces(s)| ==> !IsSpace(DashSpaces(s)[i])
    decreases |s|
  {
    if s != [] {
      if IsSpace(s[0]) {
        TrimLeftSpec(s, IsSpace);
        DashSpacesNoSpace(TrimLeft(s, IsSpace));
      } else {
        DashSpacesNoSpace(s[1..]);
      }
    }
  }

  lemma {:induction false} DashSpacesChars(s: string)
    ensures forall i :: 0 <= i < |DashSpaces(s)| ==> DashSpaces(s)[i] in s || DashSpaces(s)[i] == '-'
    decreases |s|
  {
    if s != [] {
      if IsSpace(s[0]) {
        TrimLeftSpec(s, IsSpace);
        var t := TrimLeft(s, IsSpace);
        DashSpacesChars(t);
        assert forall x :: x in t ==> x in s;
      } else {
        DashSpacesChars(s[1..]);
        assert forall x :: x in s[1..] ==> x in s;
      }
    }
  }

  /** `s.toLowerCase().replace(/\s+/g, '-')`, the URL slug of a city name. */
  function Slugify(s: string): string {
    DashSpaces(Lower(s))
  }

  /** A slug is already lower case, so lowercasing it again changes nothing. */
  lemma SlugifyLower(s: string)
    ensures NoUpper(Slugify(s))
    ensures Lower(Slugify(s)) == Slugify(s)
  {
    var l := Lower(s);
    var r := DashSpaces(l);
    DashSpacesSpec(l);
    forall i | 0 <= i < |r| ensures !IsUpper(r[i]) {
      if r[i] != '-' {
        var j :| 0 <= j < |l| && l[j] == r[i];
      }
    }
    LowerOfNoUpper(r);
  }

  /** A whitespace-free prefix passes through `DashSpaces` unchanged. */
  lemma {:induction false} DashSpacesPrefix(s: string, k: nat)
    requires k <= |s|
    requires forall i :: 0 <= i < k ==> !IsSpace(s[i])
    ensures k <= |DashSpaces(s)| && DashSpaces(s)[..k] == s[..k]
  {
    if k > 0 {
      DashSpacesPrefix(s[1..], k - 1);
      assert DashSpaces(s) == [s[0]] + DashSpaces(s[1..]);
    }
  }

  /** The slug of a name begins with the lowercased whitespace-free prefix of the name. */
  lemma SlugPrefix(s: string, k: nat)
    requires k <= |s|
    requires forall i :: 0 <= i < k ==> !IsSpace(s[i])
    ensures k <= |Slugify(s)|
    ensures forall i :: 0 <= i < k ==> Slugify(s)[i] == LowerChar(s[i])
  {
    DashSpacesPrefix(Lower(s), k);
    forall i | 0 <= i < k ensures Slugify(s)[i] == LowerChar(s[i]) {
      assert Slugify(s)[i] == DashSpaces(Lower(s))[..k][i];
    }
  }

  /** Whitespace occurs only as single ' ' characters. */
  predicate SingleSpaced(s: string) {
    forall i :: 0 <= i < |s| && IsSpace(s[i]) ==> s[i] == ' ' && (i + 1 < |s| ==> !IsSpace(s[i + 1]))
  }

  lemma LowerKeepsSingleSpaced(s: string)
    requires SingleSpaced(s)
    ensures SingleSpaced(Lower(s))
  {
    forall i | 0 <= i < |s| ensures IsSpace(Lower(s)[i]) <==> IsSpace(s[i]) {
      assert Lower(s)[i] == LowerChar(s[i]);
    }
  }

  /** Where whitespace is only single spaces, collapsing runs is replacing each space. */
  lemma {:induction false} DashSpacesOfSingleSpaced(s: string)
    requires SingleSpaced(s)
    ensures DashSpaces(s) == ReplaceChar(s, ' ', "-")
  {
    if s != [] {
      assert SingleSpaced(s[1..]) by {
        forall i | 0 <= i < |s[1..]| && IsSpace(s[1..][i])
          ensures s[1..][i] == ' ' && (i + 1 < |s[1..]| ==> !IsSpace(s[1..][i + 1]))
        {
          assert s[1..][i] == s[i + 1];
        }
      }
      DashSpacesOfSingleSpaced(s[1..]);
      if IsSpace(s[0]) {
        assert TrimLeft(s, IsSpace) == s[1..] by {
          if |s| > 1 {
            assert !IsSpace(s[1]);
            assert TrimLeft(s[1..], IsSpace) == s[1..];
          }
        }
      }
    }
  }

  predicate OccursAt(s: string, pat: string, i: nat) {
    i + |pat| <= |s| && s[i..i + |pat|] == pat
  }

  function FindFrom(s: string, pat: string, i: nat): (r: Option<nat>)
    requires i <= |s|
    ensures r.Some? ==> i <= r.value && OccursAt(s, pat, r.value)
    ensures r.Some? ==> forall j :: i <= j < r.value ==> !OccursAt(s, pat, j)
    ensures r.None? ==> forall j: nat :: i <= j ==> !OccursAt(s, pat, j)
    decreases |s| - i
  {
    if OccursAt(s, pat, i) then Some(i)
    else if i == |s| then None
    else FindFrom(s, pat, i + 1)
  }

  /** The index of the first occurrence of `pat` in `s`, if any. */
  function Find(s: string, pat: string): (r: Option<nat>)
    ensures r.Some? ==> OccursAt(s, pat, r.value)
    ensures r.Some? ==> forall j: nat :: j < r.value ==> !OccursAt(s, pat, j)
    ensures r.None? ==> forall j: nat :: !OccursAt(s, pat, j)
  {
    FindFrom(s, pat, 0)
  }

  /** JavaScript's `s.includes(sub)`. */
  predicate Contains(s: string, sub: string) {
    Find(s, sub).Some?
  }

  lemma ContainsEmpty(s: string)
    ensures Contains(s, "")
  {
    assert OccursAt(s, "", 0);
  }

  /** Python's `s.replace(pat, rep, 1)`: only the first occurrence, if any, is replaced. */
  function ReplaceFirst(s: string, pat: string, rep: string): (r: string)
    ensures Find(s, pat).None? ==> r == s
    ensures Find(s, pat).Some? ==>
      var k := Find(s, pat).value;
      k + |pat| <= |s| && r == s[..k] + rep + s[k + |pat|..]
  {
    match Find(s, pat)
    case None => s
    case Some(k) => s[..k] + rep + s[k + |pat|..]
  }

  /** Replacing the first `pat` by `ins + pat` inserts `ins` just before it. */
  lemma ReplaceFirstInserts(s: string, pat: string, ins: string)
    ensures Find(s, pat).Some? ==>
      var k := Find(s, pat).value;
      k <= |s| && ReplaceFirst(s, pat, ins + pat) == s[..k] + ins + s[k..]
  {
    if Find(s, pat).Some? {
      var k := Find(s, pat).value;
      assert s[k..] == pat + s[k + |pat|..];
    }
  }

  /** Ordinal (code-unit) order `a <= b`, as JavaScript compares strings. */
  predicate StrLe(a: string, b: string)
    decreases |a|
  {
    a == [] || (b != [] && (a[0] < b[0] || (a[0] == b[0] && StrLe(a[1..], b[1..]))))
  }

  /** Ordinal (code-unit) order `a < b`, as JavaScript compares strings. */
  predicate StrLt(a: string, b: string)
    decreases |a|
  {
    b != [] && (a == [] || a[0] < b[0] || (a[0] == b[0] && StrLt(a[1..], b[1..])))
  }

  lemma {:induction false} StrLtIffNotLe(a: string, b: string)
    ensures StrLt(a, b) <==> !StrLe(b, a)
    decreases |a|
  {
    if a != [] && b != [] && a[0] == b[0] {
      StrLtIffNotLe(a[1..], b[1..]);
    }
  }

  lemma {:induction false} StrLeTotal(a: string, b: string)
    ensures StrLe(a, b) || StrLe(b, a)
    decreases |a|
  {
    if a != [] && b != [] && a[0] == b[0] {
      StrLeTotal(a[1..], b[1..]);
    }
  }

  lemma {:induction false} StrLeTrans(a: string, b: string, c: string)
    requires StrLe(a, b) && StrLe(b, c)
    ensures StrLe(a, c)
    decreases |a|
  {
    if a != [] && a[0] == b[0] && b[0] == c[0] {
      StrLeTrans(a[1..], b[1..], c[1..]);
    }
  }

  lemma {:induction false} StrLeAntisym(a: string, b: string)
    requires StrLe(a, b) && StrLe(b, a)
    ensures a == b
    decreases |a|
  {
    if a != [] {
      StrLeAntisym(a[1..], b[1..]);
      assert a == [a[0]] + a[1..] && b == [b[0]] + b[1..];
    }
  }

  predicate Distinct<T(==)>(s: seq<T>) {
    forall i, j :: 0 <= i < j < |s| ==> s[i] != s[j]
  }

  /** The elements of `s` satisfying `p`, in order. */
  function Filter<T(!new)>(s: seq<T>, p: T -> bool): (r: seq<T>)
    ensures |r| <= |s|
    ensures forall x :: x in r <==> x in s && p(x)
    ensures Distinct(s) ==> Distinct(r)
  {
    if s == [] then []
    else
      var rest := Filter(s[1..], p);
      assert Distinct(s) ==> Distinct(s[1..]) by {
        if Distinct(s) {
          forall i, j | 0 <= i < j < |s[1..]| ensures s[1..][i] != s[1..][j] {
            assert s[1..][i] == s[i + 1] && s[1..][j] == s[j + 1];
          }
        }
      }
      (if p(s[0]) then [s[0]] else []) + rest
  }

  /** `a` is `b` with some elements left out: an order-preserving sublist. */
  predicate Sublist<T(==)>(a: seq<T>, b: seq<T>)
    decreases |b|
  {
    if a == [] then true
    else if b == [] then false
    else (a[0] == b[0] && Sublist(a[1..], b[1..])) || Sublist(a, b[1..])
  }

  /** Filtering keeps the kept elements in their original order. */
  lemma {:induction false} FilterSublist<T(!new)>(s: seq<T>, p: T -> bool)
    ensures Sublist(Filter(s, p), s)
  {
    if s != [] {
      FilterSublist(s[1..], p);
      var r := Filter(s, p);
      if p(s[0]) {
        assert r[0] == s[0] && r[1..] == Filter(s[1..], p);
      } else {
        assert r == Filter(s[1..], p);
      }
    }
  }

  /** A filter that every element passes keeps the whole sequence. */
  lemma {:induction false} FilterAll<T(!new)>(s: seq<T>, p: T -> bool)
    requires forall x :: x in s ==> p(x)
    ensures Filter(s, p) == s
  {
    if s != [] {
      assert p(s[0]);
      assert forall x :: x in s[1..] ==> x in s;
      FilterAll(s[1..], p);
      assert Filter(s, p) == [s[0]] + Filter(s[1..], p);
    }
  }

  /** Filtering a concatenation filters each side. */
  lemma {:induction false} FilterAppend<T(!new)>(a: seq<T>, b: seq<T>, p: T -> bool)
    ensures Filter(a + b, p) == Filter(a, p) + Filter(b, p)
  {
    if a == [] {
      assert a + b == b;
    } else {
      assert (a + b)[0] == a[0];
      assert (a + b)[1..] == a[1..] + b;
      FilterAppend(a[1..], b, p);
    }
  }

  /**
   * Filtering keeps each element that passes as often as it occurs and
   * drops every other: the result is determined up to order by its counts.
   */
  lemma {:induction false} FilterCounts<T(!new)>(s: seq<T>, p: T -> bool, x: T)
    ensures multiset(Filter(s, p))[x] == if p(x) then multiset(s)[x] else 0
  {
    if s != [] {
      FilterCounts(s[1..], p, x);
      assert s == [s[0]] + s[1..];
      assert multiset(s) == multiset([s[0]]) + multiset(s[1..]);
    }
  }

  /** The elements of `s` in order of first occurrence, each once (a JavaScript `Set`'s order). */
  function Dedup<T(==,!new)>(s: seq<T>): (r: seq<T>)
    ensures forall x :: x in r <==> x in s
    ensures Distinct(r)
  {
    if s == [] then []
    else
      var d := Dedup(s[..|s| - 1]);
      assert forall x :: x in s <==> x in s[..|s| - 1] || x == s[|s| - 1] by {
        assert s == s[..|s| - 1] + [s[|s| - 1]];
      }
      if s[|s| - 1] in d then d else d + [s[|s| - 1]]
  }

  /** `f` applied to each element of `xs`, the results concatenated in order. */
  function ConcatMap<T>(xs: seq<T>, f: T -> string): string {
    if xs == [] then [] else ConcatMap(xs[..|xs| - 1], f) + f(xs[|xs| - 1])
  }

  lemma {:induction false} ConcatMapAppend<T>(a: seq<T>, b: seq<T>, f: T -> string)
    ensures ConcatMap(a + b, f) == ConcatMap(a, f) + ConcatMap(b, f)
    decreases |b|
  {
    if b != [] {
      var b' := b[..|b| - 1];
      assert (a + b)[..|a + b| - 1] == a + b';
      ConcatMapAppend(a, b', f);
      assert (a + b)[|a + b| - 1] == b[|b| - 1];
    } else {
      assert a + b == a;
    }
  }
}
