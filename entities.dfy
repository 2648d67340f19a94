/**
 * Character-entity escaping driven by a table of (character, entity) pairs,
 * and the matching decoder. Both build scripts escape this way: the prerender
 * script with the four HTML entities, the sitemap generator with the five
 * predefined XML entities. The lemmas show that, for a well-formed table,
 * escaped text contains no raw special character other than `&`, that every
 * `&` in it starts an entity, and that decoding gives the original text back.
 */
module Entities {
  import opened Wrappers
  import opened Text

  type Table = seq<(char, string)>

  predicate IsKey(c: char, t: Table) {
    exists i :: 0 <= i < |t| && t[i].0 == c
  }

  /** `&name;`: starts with `&`, ends with `;`, and has neither inside. */
  predicate EntityShaped(e: string) {
    && |e| >= 2 && e[0] == '&' && e[|e| - 1] == ';'
    && forall k :: 0 < k < |e| - 1 ==> e[k] != ';' && e[k] != '&'
  }

  /**
   * A table the decoder can invert: `&` is escaped, the entities are
   * entity-shaped, keys and entities are pairwise distinct, and no entity
   * contains a key character after its leading `&`.
   */
  predicate GoodTable(t: Table) {
    && IsKey('&', t)
    && (forall i :: 0 <= i < |t| ==> EntityShaped(t[i].1))
    && (forall i, j :: 0 <= i < j < |t| ==> t[i].0 != t[j].0 && t[i].1 != t[j].1)
    && (forall i, k :: 0 <= i < |t| && 0 < k < |t[i].1| ==> !IsKey(t[i].1[k], t))
  }

  /** The characters an entity has after its `&`. */
  predicate EntityNameChar(c: char) {
    'a' <= c <= 'z' || c == ';'
  }

  /** Entities spelled with letters guard against keys that are not letters. */
  lemma NoKeyInsideEntities(t: Table)
    requires forall j :: 0 <= j < |t| ==> !EntityNameChar(t[j].0)
    requires forall i, k :: 0 <= i < |t| && 0 < k < |t[i].1| ==> EntityNameChar(t[i].1[k])
    ensures forall i, k :: 0 <= i < |t| && 0 < k < |t[i].1| ==> !IsKey(t[i].1[k], t)
  {
  }

  /** `&`, lower-case letters, `;`: an entity with only name characters after its `&`. */
  lemma LetterEntity(e: string)
    requires |e| >= 2 && e[0] == '&' && e[|e| - 1] == ';'
    requires forall k :: 0 < k < |e| - 1 ==> 'a' <= e[k] <= 'z'
    ensures EntityShaped(e) && forall k :: 0 < k < |e| ==> EntityNameChar(e[k])
  {
  }

  /** The entity the table gives for `c`, or `c` itself. */
  function EntityOf(c: char, t: Table): string {
    if t == [] then [c]
    else if t[0].0 == c then t[0].1
    else EntityOf(c, t[1..])
  }

  lemma {:induction false} EntityOfCases(c: char, t: Table)
    ensures !IsKey(c, t) ==> EntityOf(c, t) == [c]
    ensures IsKey(c, t) ==> exists j :: 0 <= j < |t| && t[j].0 == c && EntityOf(c, t) == t[j].1
  {
    if t != [] && t[0].0 != c {
      EntityOfCases(c, t[1..]);
      if IsKey(c, t) {
        var i :| 0 <= i < |t| && t[i].0 == c;
        assert t[1..][i - 1].0 == c;
        var j :| 0 <= j < |t[1..]| && t[1..][j].0 == c && EntityOf(c, t[1..]) == t[1..][j].1;
        assert t[j + 1].0 == c && EntityOf(c, t) == t[j + 1].1;
      } else {
        forall j | 0 <= j < |t[1..]| ensures t[1..][j].0 != c {
          assert t[1..][j] == t[j + 1];
        }
      }
    } else if t != [] {
      assert t[0].0 == c;
    }
  }

  /** Every character replaced by its entity, if it has one. */
  function EscapeChars(s: string, t: Table): string {
    if s == [] then [] else EntityOf(s[0], t) + EscapeChars(s[1..], t)
  }

  /** There is an entity of the table at index `i` of `r`. */
  predicate EntityAt(r: string, i: nat, t: Table) {
    exists j :: 0 <= j < |t| && OccursAt(r, t[j].1, i)
  }

  /** No special character of the table occurs raw, except `&`. */
  predicate OnlyAmpRaw(r: string, t: Table) {
    forall i :: 0 <= i < |r| && IsKey(r[i], t) ==> r[i] == '&'
  }

  /** Every `&` starts an entity of the table. */
  predicate AmpsStartEntities(r: string, t: Table) {
    forall i :: 0 <= i < |r| && r[i] == '&' ==> EntityAt(r, i, t)
  }

  lemma {:induction false} EscapeCharsSafe(s: string, t: Table)
    requires GoodTable(t)
    ensures OnlyAmpRaw(EscapeChars(s, t), t)
    ensures AmpsStartEntities(EscapeChars(s, t), t)
  {
    if s != [] {
      EscapeCharsSafe(s[1..], t);
      EscapeSafeCons(s[0], EscapeChars(s[1..], t), t);
    }
  }

  lemma EscapeSafeCons(c: char, rest: string, t: Table)
    requires GoodTable(t)
    requires OnlyAmpRaw(rest, t) && AmpsStartEntities(rest, t)
    ensures OnlyAmpRaw(EntityOf(c, t) + rest, t)
    ensures AmpsStartEntities(EntityOf(c, t) + rest, t)
  {
    var e := EntityOf(c, t);
    var r := e + rest;
    forall i | 0 <= i < |r|
      ensures IsKey(r[i], t) ==> r[i] == '&'
      ensures r[i] == '&' ==> EntityAt(r, i, t)
    {
      if i < |e| {
        EscapedHeadSafe(c, rest, t, i);
      } else {
        EscapedTailSafe(e, rest, t, i);
      }
    }
  }

  /** A position inside the escaped first character. */
  lemma EscapedHeadSafe(c: char, rest: string, t: Table, i: nat)
    requires GoodTable(t)
    requires i < |EntityOf(c, t)|
    ensures var r := EntityOf(c, t) + rest;
      && (IsKey(r[i], t) ==> r[i] == '&')
      && (r[i] == '&' ==> EntityAt(r, i, t))
  {
    var e := EntityOf(c, t);
    var r := e + rest;
    EntityOfCases(c, t);
    assert r[i] == e[i];
    if IsKey(c, t) {
      var j :| 0 <= j < |t| && t[j].0 == c && e == t[j].1;
      if i == 0 {
        assert r[..|e|] == e;
        assert OccursAt(r, t[j].1, 0);
      } else {
        assert !IsKey(e[i], t);
      }
    } else {
      assert r[i] == c;
    }
  }

  /** A position in the already escaped rest. */
  lemma EscapedTailSafe(e: string, rest: string, t: Table, i: nat)
    requires OnlyAmpRaw(rest, t) && AmpsStartEntities(rest, t)
    requires |e| <= i < |e| + |rest|
    ensures var r := e + rest;
      && (IsKey(r[i], t) ==> r[i] == '&')
      && (r[i] == '&' ==> EntityAt(r, i, t))
  {
    var r := e + rest;
    var k := i - |e|;
    assert r[i] == rest[k];
    if rest[k] == '&' {
      assert EntityAt(rest, k, t);
      var j :| 0 <= j < |t| && OccursAt(rest, t[j].1, k);
      assert r[i..i + |t[j].1|] == rest[k..k + |t[j].1|];
      assert OccursAt(r, t[j].1, i);
    }
  }

  predicate IsPrefixOf(e: string, s: string) {
    |e| <= |s| && s[..|e|] == e
  }

  /** The first table entry whose (non-empty) entity starts `s`, searching from entry `k`. */
  function MatchFrom(s: string, t: Table, k: nat): (r: Option<nat>)
    requires k <= |t|
    ensures r.Some? ==> k <= r.value < |t| && |t[r.value].1| > 0 && IsPrefixOf(t[r.value].1, s)
    ensures r.None? ==> forall j :: k <= j < |t| ==> !(|t[j].1| > 0 && IsPrefixOf(t[j].1, s))
    decreases |t| - k
  {
    if k == |t| then None
    else if |t[k].1| > 0 && IsPrefixOf(t[k].1, s) then Some(k)
    else MatchFrom(s, t, k + 1)
  }

  /** Entities of the table turned back into their characters, left to right. */
  function Decode(s: string, t: Table): string
    decreases |s|
  {
    if s == [] then []
    else match MatchFrom(s, t, 0)
      case Some(j) => [t[j].0] + Decode(s[|t[j].1|..], t)
      case None => [s[0]] + Decode(s[1..], t)
  }

  lemma EntityPrefixUnique(e1: string, e2: string, s: string)
    requires EntityShaped(e1) && EntityShaped(e2)
    requires IsPrefixOf(e1, s) && IsPrefixOf(e2, s)
    ensures e1 == e2
  {
    var m := if |e1| <= |e2| then |e1| else |e2|;
    assert e1[m - 1] == s[m - 1] == e2[m - 1];
    assert |e1| == |e2|;
  }

  lemma DecodeCons(c: char, rest: string, t: Table)
    requires GoodTable(t)
    ensures Decode(EntityOf(c, t) + rest, t) == [c] + Decode(rest, t)
  {
    var e := EntityOf(c, t);
    var s := e + rest;
    EntityOfCases(c, t);
    if IsKey(c, t) {
      var j :| 0 <= j < |t| && t[j].0 == c && e == t[j].1;
      assert s[..|e|] == e;
      var m := MatchFrom(s, t, 0);
      assert m.Some?;
      EntityPrefixUnique(t[m.value].1, t[j].1, s);
      assert m.value == j;
      assert s[|e|..] == rest;
    } else {
      assert e == [c];
      assert c != '&';
      forall j | 0 <= j < |t| ensures !IsPrefixOf(t[j].1, s) {
        assert t[j].1[0] == '&';
      }
      assert MatchFrom(s, t, 0).None?;
      assert s[1..] == rest;
    }
  }

  lemma {:induction false} DecodeEscapeChars(s: string, t: Table)
    requires GoodTable(t)
    ensures Decode(EscapeChars(s, t), t) == s
  {
    if s != [] {
      DecodeEscapeChars(s[1..], t);
      DecodeEscapeStep(s, t);
    }
  }

  lemma DecodeEscapeStep(s: string, t: Table)
    requires GoodTable(t) && s != []
    requires Decode(EscapeChars(s[1..], t), t) == s[1..]
    ensures Decode(EscapeChars(s, t), t) == s
  {
    var rest := EscapeChars(s[1..], t);
    assert EscapeChars(s, t) == EntityOf(s[0], t) + rest;
    DecodeCons(s[0], rest, t);
    assert s == [s[0]] + s[1..];
  }
}
