/**
 * The selection predicates behind the repository's queries. A table is a map
 * from id to row; a query result is the sub-map of the rows it selects (the
 * order of the database's result list is not modelled).
 */
module StudentRepository {
  import opened Wrappers
  import opened Strings
  import opened StudentModel

  type Table = map<int, Student>

  /** SQL `LIKE`: `%` matches any run of characters, `_` any one character; no escape character. */
  predicate Like(s: string, p: string)
    decreases |p|
  {
    if p == [] then s == []
    else if p[0] == '%' then exists k | 0 <= k <= |s| :: Like(s[k..], p[1..])
    else |s| > 0 && (p[0] == '_' || s[0] == p[0]) && Like(s[1..], p[1..])
  }

  predicate NoWildcards(t: string) {
    forall i | 0 <= i < |t| :: t[i] != '%' && t[i] != '_'
  }

  /** The pattern `CONCAT('%', :searchTerm, '%')`. */
  function ContainsPattern(term: string): string {
    "%" + term + "%"
  }

  lemma LikeTrailingPercent(s: string)
    ensures Like(s, "%")
  {
    assert Like(s[|s|..], "%"[1..]);
  }

  /** With no wildcard in `t`, the pattern `t%` matches exactly the strings that start with `t`. */
  lemma {:induction false} LikePrefix(s: string, t: string)
    requires NoWildcards(t)
    ensures Like(s, t + "%") <==> IsPrefix(t, s)
    decreases |t|
  {
    if t == [] {
      assert t + "%" == "%";
      LikeTrailingPercent(s);
    } else {
      var p := t + "%";
      assert p[0] == t[0] && p[1..] == t[1..] + "%";
      assert NoWildcards(t[1..]);
      if |s| > 0 {
        LikePrefix(s[1..], t[1..]);
        assert IsPrefix(t, s) <==> s[0] == t[0] && IsPrefix(t[1..], s[1..]) by {
          if IsPrefix(t, s) {
            assert s[1..][..|t| - 1] == s[..|t|][1..];
          }
          if s[0] == t[0] && IsPrefix(t[1..], s[1..]) {
            assert s[..|t|] == [s[0]] + s[1..][..|t| - 1];
          }
        }
      }
    }
  }

  /** Whatever wildcards `t` holds, a string that starts with `t` matches `t%`. */
  lemma {:induction false} PrefixLike(s: string, t: string)
    requires IsPrefix(t, s)
    ensures Like(s, t + "%")
    decreases |t|
  {
    if t == [] {
      assert t + "%" == "%";
      LikeTrailingPercent(s);
    } else {
      var p := t + "%";
      assert p[0] == t[0] == s[0] && p[1..] == t[1..] + "%";
      assert s[1..][..|t| - 1] == s[..|t|][1..];
      PrefixLike(s[1..], t[1..]);
      if t[0] == '%' {
        assert Like(s[1..], p[1..]);
      }
    }
  }

  /** Whatever wildcards `t` holds, a string that contains `t` matches `%t%`. */
  lemma ContainsLike(s: string, t: string)
    requires Contains(s, t)
    ensures Like(s, ContainsPattern(t))
  {
    var k :| 0 <= k <= |s| && IsPrefix(t, s[k..]);
    PrefixLike(s[k..], t);
    assert ContainsPattern(t) == "%" + (t + "%");
    LikeLeadingPercent(s, t + "%", k);
  }

  /** With no wildcard in `t`, `LIKE '%t%'` is substring search. */
  lemma LikeContains(s: string, t: string)
    requires NoWildcards(t)
    ensures Like(s, ContainsPattern(t)) <==> Contains(s, t)
  {
    var p := ContainsPattern(t);
    assert p[0] == '%' && p[1..] == t + "%";
    if Like(s, p) {
      var k :| 0 <= k <= |s| && Like(s[k..], t + "%");
      LikePrefix(s[k..], t);
    }
    if Contains(s, t) {
      var k :| 0 <= k <= |s| && IsPrefix(t, s[k..]);
      LikePrefix(s[k..], t);
      assert Like(s[k..], p[1..]);
    }
  }

  /** `LOWER(field) LIKE LOWER(CONCAT('%', :searchTerm, '%'))`; a `null` column never matches. */
  predicate FieldLike(field: Option<string>, term: string) {
    field.Some? && Like(Lower(field.value), Lower(ContainsPattern(term)))
  }

  /** The `WHERE` clause of both `searchStudents` queries. */
  predicate SearchMatches(e: Student, term: string, isDelete: int) {
    (FieldLike(e.name, term) || FieldLike(e.phone, term) || FieldLike(e.email, term)) &&
    e.isDelete == isDelete
  }

  /** For a term without `%` or `_`, a column matches iff it contains the term, both lower-cased. */
  lemma FieldLikeIsLowerSubstring(field: string, term: string)
    requires NoWildcards(term)
    ensures FieldLike(Some(field), term) <==> Contains(Lower(field), Lower(term))
  {
    LowerPattern(term);
    var lt := Lower(term);
    assert Lower(ContainsPattern(term)) == ContainsPattern(lt);
    assert NoWildcards(lt);
    LikeContains(Lower(field), lt);
  }

  lemma LowerPattern(term: string)
    ensures Lower(ContainsPattern(term)) == ContainsPattern(Lower(term))
  {
    LowerConcat("%" + term, "%");
    LowerConcat("%", term);
  }

  lemma LikeLeadingPercent(s: string, q: string, k: int)
    requires 0 <= k <= |s| && Like(s[k..], q)
    ensures Like(s, "%" + q)
  {
    assert ("%" + q)[1..] == q;
  }

  /** The term is not escaped: `%` matches every non-null column. */
  lemma PercentMatchesAll(field: string)
    ensures FieldLike(Some(field), "%")
  {
    LowerPattern("%");
    assert Lower("%") == "%";
    assert ContainsPattern("%") == "%" + ("%" + "%");
    var s := Lower(field);
    assert s[0..] == s;
    LikeTrailingPercent(s);
    LikeLeadingPercent(s, "%", 0);
    LikeLeadingPercent(s, "%" + "%", 0);
  }

  /** The term is not escaped: `_` matches every non-empty column. */
  lemma UnderscoreMatchesNonEmpty(field: string)
    ensures FieldLike(Some(field), "_") <==> field != []
  {
    LowerPattern("_");
    var p := ContainsPattern(Lower("_"));
    assert p == "%_%";
    var s := Lower(field);
    if field != [] {
      LikeTrailingPercent(s[1..]);
      assert Like(s[0..], p[1..]);
    } else {
      assert forall k | 0 <= k <= |s| :: s[k..] == [];
    }
  }

  /** Derived query `findByIsDelete`: exactly the rows with that flag. */
  function FindByIsDelete(t: Table, isDelete: int): (r: Table)
    ensures forall id :: id in r <==> id in t && t[id].isDelete == isDelete
    ensures forall id | id in r :: r[id] == t[id]
  {
    map id | id in t && t[id].isDelete == isDelete :: t[id]
  }

  /**
   * Derived query `findByNameContainingAndIsDelete`. Spring Data escapes the
   * argument of a `...Containing` query, so this is plain substring search.
   */
  function FindByNameContainingAndIsDelete(t: Table, name: string, isDelete: int): (r: Table)
    ensures forall id :: id in r <==>
      id in t && t[id].name.Some? && Contains(t[id].name.value, name) && t[id].isDelete == isDelete
    ensures forall id | id in r :: r[id] == t[id]
  {
    map id | id in t && t[id].name.Some? && Contains(t[id].name.value, name) && t[id].isDelete == isDelete :: t[id]
  }

  /** Derived query `findByPhoneContainingAndIsDelete`. */
  function FindByPhoneContainingAndIsDelete(t: Table, phone: string, isDelete: int): (r: Table)
    ensures forall id :: id in r <==>
      id in t && t[id].phone.Some? && Contains(t[id].phone.value, phone) && t[id].isDelete == isDelete
    ensures forall id | id in r :: r[id] == t[id]
  {
    map id | id in t && t[id].phone.Some? && Contains(t[id].phone.value, phone) && t[id].isDelete == isDelete :: t[id]
  }

  /** The JPQL query `searchStudents`. */
  function SearchStudents(t: Table, term: string, isDelete: int): (r: Table)
    ensures forall id :: id in r <==> id in t && SearchMatches(t[id], term, isDelete)
    ensures forall id | id in r :: r[id] == t[id]
  {
    map id | id in t && SearchMatches(t[id], term, isDelete) :: t[id]
  }

  /** Every query selects only rows with the flag it was given. */
  lemma QueriesRespectFlag(t: Table, s: string, isDelete: int)
    ensures SearchStudents(t, s, isDelete).Keys <= FindByIsDelete(t, isDelete).Keys
    ensures FindByNameContainingAndIsDelete(t, s, isDelete).Keys <= FindByIsDelete(t, isDelete).Keys
    ensures FindByPhoneContainingAndIsDelete(t, s, isDelete).Keys <= FindByIsDelete(t, isDelete).Keys
  {
  }

  /** A record found by name is also found by the free-text search with the same argument. */
  lemma {:induction false} NameHitIsSearchHit(t: Table, name: string, isDelete: int)
    ensures FindByNameContainingAndIsDelete(t, name, isDelete).Keys <= SearchStudents(t, name, isDelete).Keys
  {
    forall id | id in FindByNameContainingAndIsDelete(t, name, isDelete)
      ensures id in SearchStudents(t, name, isDelete)
    {
      var n := t[id].name.value;
      ContainsLower(n, name);
      ContainsLike(Lower(n), Lower(name));
      LowerPattern(name);
    }
  }
}
