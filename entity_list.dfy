/**
 * The list logic every management screen shares: `Array.prototype.filter`,
 * the search-and-category rule that decides which records are visible,
 * counting and summing over a list, and `[...new Set(xs)]`.
 *
 * Per-field accessors (`name`, `status`, ...) are passed as named functions,
 * so that every screen's instance of a generic member is the same term.
 */
module EntityList {
  import opened Text

  /** `rs.filter(p)`: the records satisfying `p`, front to back. */
  function Keep<R(!new)>(rs: seq<R>, p: R -> bool): (r: seq<R>)
    ensures |r| <= |rs|
    ensures forall x :: x in r <==> x in rs && p(x)
  {
    if rs == [] then []
    else (if p(rs[0]) then [rs[0]] else []) + Keep(rs[1..], p)
  }

  /** `idx` picks out `a` from `b` at strictly increasing positions. */
  ghost predicate Embedding<T>(a: seq<T>, b: seq<T>, idx: seq<int>)
  {
    |idx| == |a|
    && (forall k :: 0 <= k < |idx| ==> 0 <= idx[k] < |b| && a[k] == b[idx[k]])
    && (forall k, l :: 0 <= k < l < |idx| ==> idx[k] < idx[l])
  }

  /** `a` is `b` with some elements removed and the rest in their original order. */
  ghost predicate IsSubsequence<T>(a: seq<T>, b: seq<T>)
  {
    exists idx :: Embedding(a, b, idx)
  }

  function Shift(idx: seq<int>): (r: seq<int>)
    ensures |r| == |idx|
    ensures forall k :: 0 <= k < |idx| ==> r[k] == idx[k] + 1
  {
    seq(|idx|, k requires 0 <= k < |idx| => idx[k] + 1)
  }

  /**
   * `Keep(rs, p)` is the subsequence of `rs` at exactly the positions whose
   * record satisfies `p`.
   */
  lemma {:induction false} KeepPositions<R(!new)>(rs: seq<R>, p: R -> bool) returns (idx: seq<int>)
    ensures Embedding(Keep(rs, p), rs, idx)
    ensures forall j :: 0 <= j < |rs| ==> (p(rs[j]) <==> j in idx)
  {
    if rs == [] {
      idx := [];
    } else {
      var tail := KeepPositions(rs[1..], p);
      var moved := Shift(tail);
      ShiftedEmbedding(Keep(rs[1..], p), rs, tail);
      ShiftMembership(tail);
      if p(rs[0]) {
        idx := [0] + moved;
        assert Keep(rs, p) == [rs[0]] + Keep(rs[1..], p);
      } else {
        idx := moved;
        assert Keep(rs, p) == Keep(rs[1..], p);
      }
    }
  }

  /** An embedding into the tail of `b` moves one place right in `b`, past position 0. */
  lemma ShiftedEmbedding<T>(a: seq<T>, b: seq<T>, idx: seq<int>)
    requires b != [] && Embedding(a, b[1..], idx)
    ensures Embedding(a, b, Shift(idx))
    ensures Embedding([b[0]] + a, b, [0] + Shift(idx))
  {
  }

  lemma ShiftMembership(idx: seq<int>)
    ensures forall j :: j in Shift(idx) <==> j - 1 in idx
  {
  }

  /** Filtering keeps the original relative order. */
  lemma KeepIsSubsequence<R(!new)>(rs: seq<R>, p: R -> bool)
    ensures IsSubsequence(Keep(rs, p), rs)
  {
    var idx := KeepPositions(rs, p);
  }

  /** Each record is kept exactly as often as it occurs, when it satisfies `p`. */
  lemma {:induction false} KeepMultiset<R(!new)>(rs: seq<R>, p: R -> bool, x: R)
    ensures multiset(Keep(rs, p))[x] == if p(x) then multiset(rs)[x] else 0
  {
    if rs != [] {
      KeepMultiset(rs[1..], p, x);
      assert rs == [rs[0]] + rs[1..];
    }
  }

  /** A predicate every record satisfies keeps the whole list, unchanged. */
  lemma {:induction false} KeepEverything<R(!new)>(rs: seq<R>, p: R -> bool)
    requires forall x :: x in rs ==> p(x)
    ensures Keep(rs, p) == rs
  {
    if rs != [] {
      KeepEverything(rs[1..], p);
    }
  }

  /** The result is empty exactly when no record satisfies `p`. */
  lemma KeepEmpty<R(!new)>(rs: seq<R>, p: R -> bool)
    ensures Keep(rs, p) == [] <==> forall x :: x in rs ==> !p(x)
  {
  }

  /** Filtering by a stronger predicate after a weaker one is filtering by the stronger one. */
  lemma {:induction false} KeepNarrowing<R(!new)>(rs: seq<R>, weak: R -> bool, strong: R -> bool)
    requires forall x :: strong(x) ==> weak(x)
    ensures Keep(Keep(rs, weak), strong) == Keep(rs, strong)
  {
    if rs != [] {
      KeepNarrowing(rs[1..], weak, strong);
      KeepUnfold(rs, weak);
      if weak(rs[0]) {
        KeepUnfold(Keep(rs, weak), strong);
      }
    }
  }

  /** One step of `Keep`, with the first kept record named. */
  lemma KeepUnfold<R(!new)>(rs: seq<R>, p: R -> bool)
    requires rs != []
    ensures p(rs[0]) ==> Keep(rs, p) != [] && Keep(rs, p)[0] == rs[0] && Keep(rs, p)[1..] == Keep(rs[1..], p)
    ensures !p(rs[0]) ==> Keep(rs, p) == Keep(rs[1..], p)
  {
  }

  /** Filtering twice by the same predicate is filtering once. */
  lemma KeepIdempotent<R(!new)>(rs: seq<R>, p: R -> bool)
    ensures Keep(Keep(rs, p), p) == Keep(rs, p)
  {
    KeepNarrowing(rs, p, p);
  }

  /** The conjunction of two predicates, as one predicate. */
  function Both<R(!new)>(p: R -> bool, q: R -> bool): (r: R -> bool)
    ensures forall x :: r(x) <==> p(x) && q(x)
  {
    x => p(x) && q(x)
  }

  /** Two filters in a row filter by the conjunction, in either order. */
  lemma {:induction false} KeepBoth<R(!new)>(rs: seq<R>, p: R -> bool, q: R -> bool)
    ensures Keep(Keep(rs, p), q) == Keep(rs, Both(p, q))
    ensures Keep(Keep(rs, q), p) == Keep(rs, Both(p, q))
  {
    if rs != [] {
      KeepBoth(rs[1..], p, q);
      KeepUnfold(rs, p);
      KeepUnfold(rs, q);
      KeepUnfold(rs, Both(p, q));
      if p(rs[0]) {
        KeepUnfold(Keep(rs, p), q);
      }
      if q(rs[0]) {
        KeepUnfold(Keep(rs, q), p);
      }
    }
  }

  /** The complement of a predicate. */
  function Not<R(!new)>(p: R -> bool): (r: R -> bool)
    ensures forall x :: r(x) <==> !p(x)
  {
    x => !p(x)
  }

  /** Every record is either kept or dropped, never both. */
  lemma {:induction false} KeepPartition<R(!new)>(rs: seq<R>, p: R -> bool)
    ensures |Keep(rs, p)| + |Keep(rs, Not(p))| == |rs|
  {
    if rs != [] {
      KeepPartition(rs[1..], p);
    }
  }

  /** Two predicates no record satisfies together count at most the whole list. */
  lemma DisjointCounts<R(!new)>(rs: seq<R>, p: R -> bool, q: R -> bool)
    requires forall x :: p(x) ==> !q(x)
    ensures |Keep(rs, p)| + |Keep(rs, q)| <= |rs|
  {
  }

  /** `rs.reduce((sum, x) => sum + value(x), 0)`. */
  function Sum<R(!new)>(rs: seq<R>, value: R -> int): int
  {
    if rs == [] then 0 else value(rs[0]) + Sum(rs[1..], value)
  }

  /** The sum read left to right, as `reduce` accumulates it: one more record adds its value. */
  lemma {:induction false} SumSnoc<R(!new)>(rs: seq<R>, x: R, value: R -> int)
    ensures Sum(rs + [x], value) == Sum(rs, value) + value(x)
  {
    if rs != [] {
      assert (rs + [x])[1..] == rs[1..] + [x];
      SumSnoc(rs[1..], x, value);
    } else {
      assert rs + [x] == [x];
    }
  }

  /** The sum over a list is the sum over the kept records plus the sum over the dropped ones. */
  lemma {:induction false} SumPartition<R(!new)>(rs: seq<R>, value: R -> int, p: R -> bool)
    ensures Sum(rs, value) == Sum(Keep(rs, p), value) + Sum(Keep(rs, Not(p)), value)
  {
    if rs != [] {
      SumPartition(rs[1..], value, p);
      assert Keep(rs, p) == (if p(rs[0]) then [rs[0]] else []) + Keep(rs[1..], p);
      if p(rs[0]) {
        assert Keep(rs, p)[1..] == Keep(rs[1..], p);
        assert Keep(rs, Not(p)) == Keep(rs[1..], Not(p));
      } else {
        assert Keep(rs, Not(p))[1..] == Keep(rs[1..], Not(p));
        assert Keep(rs, p) == Keep(rs[1..], p);
      }
    }
  }

  /** No two records of `rs` share a key. */
  ghost predicate UniqueKeys<R>(rs: seq<R>, key: R -> int)
  {
    forall i, j :: 0 <= i < j < |rs| ==> key(rs[i]) != key(rs[j])
  }

  /** Filtering keeps keys unique: distinct kept positions come from distinct original positions. */
  lemma KeepKeepsUniqueKeys<R(!new)>(rs: seq<R>, p: R -> bool, key: R -> int)
    requires UniqueKeys(rs, key)
    ensures UniqueKeys(Keep(rs, p), key)
  {
    var kept := Keep(rs, p);
    var idx := KeepPositions(rs, p);
    forall i, j | 0 <= i < j < |kept|
      ensures key(kept[i]) != key(kept[j])
    {
      assert kept[i] == rs[idx[i]] && kept[j] == rs[idx[j]] && idx[i] < idx[j];
    }
  }

  // ---------------------------------------------------------------------------
  // The visibility rule of the list screens

  /** The sentinel value of a categorical filter that lets every record through. */
  const All: string := "all"

  /**
   * `f1.toLowerCase().includes(term.toLowerCase()) || f2... || f3...`: some
   * searchable field contains the search term, ignoring ASCII case. The term
   * is not trimmed.
   */
  function SearchMatch(fields: seq<string>, term: string): bool
  {
    fields != [] && (Includes(Lower(fields[0]), Lower(term)) || SearchMatch(fields[1..], term))
  }

  /** A search matches iff some searchable field, lower-cased, contains the lower-cased term. */
  lemma {:induction false} SearchMatchMeaning(fields: seq<string>, term: string)
    ensures SearchMatch(fields, term) <==> exists i :: 0 <= i < |fields| && IsSubstring(Lower(term), Lower(fields[i]))
  {
    if fields != [] {
      SearchMatchMeaning(fields[1..], term);
      assert forall i :: 1 <= i < |fields| ==> fields[i] == fields[1..][i - 1];
      if !SearchMatch(fields, term) {
        forall i | 0 <= i < |fields|
          ensures !IsSubstring(Lower(term), Lower(fields[i]))
        {
          if i > 0 {
            assert fields[1..][i - 1] == fields[i];
          }
        }
      }
    }
  }

  /** `filter === 'all' || value === filter`: exact, case-sensitive comparison. */
  predicate CategoryMatch(value: string, filter: string)
  {
    filter == All || value == filter
  }

  /** A screen's query: the search box and the categorical select. */
  datatype Query = Query(term: string, filter: string)

  function MatchesSearch<R(!new)>(fields: R -> seq<string>, term: string): (r: R -> bool)
    ensures forall x :: r(x) <==> SearchMatch(fields(x), term)
  {
    x => SearchMatch(fields(x), term)
  }

  function MatchesCategory<R(!new)>(category: R -> string, filter: string): (r: R -> bool)
    ensures forall x :: r(x) <==> CategoryMatch(category(x), filter)
  {
    x => CategoryMatch(category(x), filter)
  }

  /** Text search alone, for the screen that has no categorical filter. */
  function Search<R(!new)>(rs: seq<R>, fields: R -> seq<string>, term: string): seq<R>
  {
    Keep(rs, MatchesSearch(fields, term))
  }

  /** The categorical filter alone. */
  function Categorize<R(!new)>(rs: seq<R>, category: R -> string, filter: string): seq<R>
  {
    Keep(rs, MatchesCategory(category, filter))
  }

  function MatchesQuery<R(!new)>(fields: R -> seq<string>, category: R -> string, q: Query): (r: R -> bool)
    ensures forall x :: r(x) <==> SearchMatch(fields(x), q.term) && CategoryMatch(category(x), q.filter)
  {
    Both(MatchesSearch(fields, q.term), MatchesCategory(category, q.filter))
  }

  /** The visible records: those passing both the search and the categorical filter. */
  function Visible<R(!new)>(rs: seq<R>, fields: R -> seq<string>, category: R -> string, q: Query): (r: seq<R>)
    ensures |r| <= |rs|
    ensures forall x :: x in r <==> x in rs && SearchMatch(fields(x), q.term) && CategoryMatch(category(x), q.filter)
  {
    Keep(rs, MatchesQuery(fields, category, q))
  }

  /** The visible records are a subsequence of the list, in their original order. */
  lemma VisibleOrder<R(!new)>(rs: seq<R>, fields: R -> seq<string>, category: R -> string, q: Query)
    ensures IsSubsequence(Visible(rs, fields, category, q), rs)
  {
    KeepIsSubsequence(rs, MatchesQuery(fields, category, q));
  }

  /** AND semantics: searching then filtering, or filtering then searching, gives the visible list. */
  lemma VisibleIsBothFilters<R(!new)>(rs: seq<R>, fields: R -> seq<string>, category: R -> string, q: Query)
    ensures Visible(rs, fields, category, q) == Categorize(Search(rs, fields, q.term), category, q.filter)
    ensures Visible(rs, fields, category, q) == Search(Categorize(rs, category, q.filter), fields, q.term)
  {
    KeepBoth(rs, MatchesSearch(fields, q.term), MatchesCategory(category, q.filter));
  }

  /** The empty term matches every record, since every string includes "". */
  lemma EmptyTermMatches(fields: seq<string>)
    requires fields != []
    ensures SearchMatch(fields, "")
  {
  }

  /** With an empty term only the categorical filter is left. */
  lemma EmptyTermVisible<R(!new)>(rs: seq<R>, fields: R -> seq<string>, category: R -> string, filter: string)
    requires forall x :: fields(x) != []
    ensures Visible(rs, fields, category, Query("", filter)) == Categorize(rs, category, filter)
  {
    VisibleIsBothFilters(rs, fields, category, Query("", filter));
    forall x | x in rs
      ensures MatchesSearch(fields, "")(x)
    {
      EmptyTermMatches(fields(x));
    }
    KeepEverything(rs, MatchesSearch(fields, ""));
  }

  /** The empty term with filter "all" shows the whole list, unchanged. */
  lemma EmptyQueryShowsAll<R(!new)>(rs: seq<R>, fields: R -> seq<string>, category: R -> string)
    requires forall x :: fields(x) != []
    ensures Visible(rs, fields, category, Query("", All)) == rs
  {
    EmptyTermVisible(rs, fields, category, All);
    KeepEverything(rs, MatchesCategory(category, All));
  }

  /** Re-applying the query to its own result changes nothing. */
  lemma VisibleIdempotent<R(!new)>(rs: seq<R>, fields: R -> seq<string>, category: R -> string, q: Query)
    ensures Visible(Visible(rs, fields, category, q), fields, category, q) == Visible(rs, fields, category, q)
  {
    KeepIdempotent(rs, MatchesQuery(fields, category, q));
  }

  /** The search sees the term only through its lower-cased form. */
  lemma {:induction false} SearchMatchSameLower(fields: seq<string>, t1: string, t2: string)
    requires Lower(t1) == Lower(t2)
    ensures SearchMatch(fields, t1) == SearchMatch(fields, t2)
  {
    if fields != [] {
      SearchMatchSameLower(fields[1..], t1, t2);
    }
  }

  /** Upper-casing the term (ASCII) does not change which records are visible. */
  lemma SearchIgnoresCase<R(!new)>(rs: seq<R>, fields: R -> seq<string>, category: R -> string, q: Query)
    ensures Visible(rs, fields, category, Query(Upper(q.term), q.filter)) == Visible(rs, fields, category, q)
  {
    LowerOfUpper(q.term);
    forall x
      ensures MatchesQuery(fields, category, Query(Upper(q.term), q.filter))(x) == MatchesQuery(fields, category, q)(x)
    {
      SearchMatchSameLower(fields(x), Upper(q.term), q.term);
    }
    KeepExtensional(rs, MatchesQuery(fields, category, Query(Upper(q.term), q.filter)), MatchesQuery(fields, category, q));
  }

  /** Lengthening the term can only narrow the result: the longer term's result is a filter of the shorter's. */
  lemma LongerTermNarrows<R(!new)>(rs: seq<R>, fields: R -> seq<string>, short: string, long: string)
    requires IsSubstring(short, long)
    ensures Search(rs, fields, long) == Keep(Search(rs, fields, short), MatchesSearch(fields, long))
  {
    LowerKeepsSubstring(short, long);
    forall x | MatchesSearch(fields, long)(x)
      ensures MatchesSearch(fields, short)(x)
    {
      SearchMatchMeaning(fields(x), long);
      SearchMatchMeaning(fields(x), short);
      var i :| 0 <= i < |fields(x)| && IsSubstring(Lower(long), Lower(fields(x)[i]));
      SubstringTransitive(Lower(short), Lower(long), Lower(fields(x)[i]));
    }
    KeepNarrowing(rs, MatchesSearch(fields, short), MatchesSearch(fields, long));
  }

  /** With an empty term the search alone keeps every record. */
  lemma EmptyTermSearch<R(!new)>(rs: seq<R>, fields: R -> seq<string>)
    requires forall x :: fields(x) != []
    ensures Search(rs, fields, "") == rs
  {
    forall x | x in rs
      ensures MatchesSearch(fields, "")(x)
    {
      EmptyTermMatches(fields(x));
    }
    KeepEverything(rs, MatchesSearch(fields, ""));
  }

  /** The three-field search of the screens, spelled out as the `||` chain it is. */
  lemma SearchMatchThree(fields: seq<string>, term: string)
    requires |fields| == 3
    ensures SearchMatch(fields, term)
        <==> Includes(Lower(fields[0]), Lower(term)) || Includes(Lower(fields[1]), Lower(term))
             || Includes(Lower(fields[2]), Lower(term))
  {
    var t := Lower(term);
    var rest, last := fields[1..], fields[2..];
    assert rest[0] == fields[1] && last[0] == fields[2] && rest[1..] == last && last[1..] == [];
    assert SearchMatch(last, term) == Includes(Lower(fields[2]), t);
    assert SearchMatch(rest, term) == (Includes(Lower(fields[1]), t) || SearchMatch(last, term));
  }

  /** The column of `key` values, one per record: `rs.map(key)`. */
  function Column<R>(rs: seq<R>, key: R -> string): (r: seq<string>)
    ensures |r| == |rs|
    ensures forall i :: 0 <= i < |rs| ==> r[i] == key(rs[i])
  {
    seq(|rs|, i requires 0 <= i < |rs| => key(rs[i]))
  }

  /** Counting the records whose `key` is `v` is counting `v` in the column. */
  lemma {:induction false} WhereCount<R(!new)>(rs: seq<R>, key: R -> string, v: string)
    ensures |Where(rs, key, v)| == multiset(Column(rs, key))[v]
  {
    if rs != [] {
      var column, rest := Column(rs, key), Column(rs[1..], key);
      WhereCount(rs[1..], key, v);
      KeepUnfold(rs, Is(key, v));
      assert column == [key(rs[0])] + rest;
      assert multiset(column) == multiset{key(rs[0])} + multiset(rest);
      if key(rs[0]) == v {
        assert |Where(rs, key, v)| == 1 + |Where(rs[1..], key, v)|;
      } else {
        assert Where(rs, key, v) == Where(rs[1..], key, v);
      }
    }
  }

  /** The records whose `key` is exactly `v`: `rs.filter(x => key(x) === v)`. */
  function Where<R(!new)>(rs: seq<R>, key: R -> string, v: string): seq<R>
  {
    Keep(rs, Is(key, v))
  }

  function Is<R(!new)>(key: R -> string, v: string): (r: R -> bool)
    ensures forall x :: r(x) <==> key(x) == v
  {
    x => key(x) == v
  }

  /** Filtering by two predicates that agree on every record gives the same list. */
  lemma {:induction false} KeepExtensional<R(!new)>(rs: seq<R>, p: R -> bool, q: R -> bool)
    requires forall x :: p(x) == q(x)
    ensures Keep(rs, p) == Keep(rs, q)
  {
    if rs != [] {
      KeepExtensional(rs[1..], p, q);
    }
  }

  /** A categorical filter other than "all" is exact equality on the field. */
  lemma CategorizeIsWhere<R(!new)>(rs: seq<R>, category: R -> string, filter: string)
    requires filter != All
    ensures Categorize(rs, category, filter) == Where(rs, category, filter)
  {
    KeepExtensional(rs, MatchesCategory(category, filter), Is(category, filter));
  }

  // ---------------------------------------------------------------------------
  // Distinct values in first-occurrence order

  /** Position of the first occurrence of `x` in `xs`. */
  function FirstIndex<T(==)>(xs: seq<T>, x: T): (i: nat)
    requires x in xs
    ensures i < |xs| && xs[i] == x && x !in xs[..i]
  {
    if xs[0] == x then 0 else 1 + FirstIndex(xs[1..], x)
  }

  /** `[...new Set(xs)]`: each value once, at the place where it first occurs. */
  function Distinct<T(==,!new)>(xs: seq<T>): (r: seq<T>)
    ensures |r| <= |xs|
    ensures forall x :: x in r <==> x in xs
  {
    if xs == [] then []
    else
      var seen := Distinct(xs[..|xs| - 1]);
      if xs[|xs| - 1] in seen then seen else seen + [xs[|xs| - 1]]
  }

  /** No duplicates, the same values as `xs`, and ordered by first occurrence in `xs`. */
  lemma {:induction false} DistinctFacts<T(!new)>(xs: seq<T>)
    ensures forall i, j :: 0 <= i < j < |Distinct(xs)| ==> Distinct(xs)[i] != Distinct(xs)[j]
    ensures forall x :: x in Distinct(xs) <==> x in xs
    ensures forall i, j :: 0 <= i < j < |Distinct(xs)| ==>
              FirstIndex(xs, Distinct(xs)[i]) < FirstIndex(xs, Distinct(xs)[j])
  {
    if xs != [] {
      var init := xs[..|xs| - 1];
      var last := xs[|xs| - 1];
      DistinctFacts(init);
      assert xs == init + [last];
      forall x | x in init
        ensures FirstIndex(xs, x) == FirstIndex(init, x)
      {
        FirstIndexPrefix(init, [last], x);
      }
      if last !in init {
        assert FirstIndex(xs, last) == |xs| - 1 by {
          assert last !in xs[..|xs| - 1];
        }
      }
    }
  }

  lemma {:induction false} FirstIndexPrefix<T>(a: seq<T>, b: seq<T>, x: T)
    requires x in a
    ensures FirstIndex(a + b, x) == FirstIndex(a, x)
  {
    if a[0] != x {
      assert (a + b)[1..] == a[1..] + b;
      FirstIndexPrefix(a[1..], b, x);
    }
  }
}
