/**
 * The read layer over the stored `asteroids` table: lookup by id, the
 * hazardous objects, the N largest by maximum diameter and the filtered
 * search. Each SQL query is modelled as filter, sort and limit over the
 * table's rows; a NULL column is `None` and never satisfies a comparison.
 */
module Queries {
  import opened Wrappers

  /** One row of the `asteroids` table; `id` is the primary key. */
  datatype Asteroid = Asteroid(
    id: string,
    name: Option<string>,
    absMag: Option<real>,
    minD: Option<real>,
    maxD: Option<real>,
    hazard: Option<bool>,
    eccentricity: Option<real>,
    semiMajAx: Option<real>,
    inclination: Option<real>,
    ascendingNodeLon: Option<real>,
    perihelionDist: Option<real>,
    aphelionDist: Option<real>)

  /** The primary-key constraint of the table. */
  ghost predicate UniqueIds(table: seq<Asteroid>)
  {
    forall i, j :: 0 <= i < j < |table| ==> table[i].id != table[j].id
  }

  /** `WHERE keep`: the rows that satisfy `keep`, in table order. */
  function Where(rows: seq<Asteroid>, keep: Asteroid -> bool): (r: seq<Asteroid>)
    ensures |r| <= |rows|
    ensures forall a :: a in r <==> a in rows && keep(a)
  {
    if rows == [] then []
    else (if keep(rows[0]) then [rows[0]] else []) + Where(rows[1..], keep)
  }

  /** Filters that agree on every row select the same rows. */
  lemma {:induction false} WhereAgree(rows: seq<Asteroid>, f: Asteroid -> bool, g: Asteroid -> bool)
    requires forall a :: a in rows ==> f(a) == g(a)
    ensures Where(rows, f) == Where(rows, g)
    decreases |rows|
  {
    if rows != [] {
      WhereAgree(rows[1..], f, g);
    }
  }

  /** A filter that every row passes keeps the table as it is. */
  lemma {:induction false} WhereAll(rows: seq<Asteroid>, f: Asteroid -> bool)
    requires forall a :: a in rows ==> f(a)
    ensures Where(rows, f) == rows
    decreases |rows|
  {
    if rows != [] {
      WhereAll(rows[1..], f);
    }
  }

  /** A stronger filter selects a sub-multiset of the rows a weaker one selects. */
  lemma {:induction false} WhereMonotone(rows: seq<Asteroid>, f: Asteroid -> bool, g: Asteroid -> bool)
    requires forall a :: a in rows && f(a) ==> g(a)
    ensures multiset(Where(rows, f)) <= multiset(Where(rows, g))
    decreases |rows|
  {
    if rows != [] {
      WhereMonotone(rows[1..], f, g);
    }
  }

  // ---------------------------------------------------------- get_by_id

  /** `SELECT * FROM asteroids WHERE id = objId`. */
  function GetById(table: seq<Asteroid>, objId: string): (r: seq<Asteroid>)
    ensures forall a :: a in r <==> a in table && a.id == objId
  {
    Where(table, (a: Asteroid) => a.id == objId)
  }

  /** Because the id is the primary key, the lookup returns at most one row, and none when the id is not stored. */
  lemma GetByIdAtMostOne(table: seq<Asteroid>, objId: string)
    requires UniqueIds(table)
    ensures |GetById(table, objId)| <= 1
    ensures GetById(table, objId) == [] <==> forall a :: a in table ==> a.id != objId
  {
    WhereUniqueKey(table, objId);
    var r := GetById(table, objId);
    if r != [] {
      assert r[0] in r;
    }
  }

  lemma {:induction false} WhereUniqueKey(table: seq<Asteroid>, objId: string)
    requires UniqueIds(table)
    ensures |Where(table, (a: Asteroid) => a.id == objId)| <= 1
    decreases |table|
  {
    if table != [] {
      var rest := table[1..];
      assert UniqueIds(rest) by {
        forall i, j | 0 <= i < j < |rest| ensures rest[i].id != rest[j].id {
          assert rest[i] == table[i + 1] && rest[j] == table[j + 1];
        }
      }
      WhereUniqueKey(rest, objId);
      if table[0].id == objId {
        forall a | a in rest ensures a.id != objId {
          var j :| 0 <= j < |rest| && rest[j] == a;
          assert table[j + 1] == a;
        }
        WhereNone(rest, (a: Asteroid) => a.id == objId);
      }
    }
  }

  /** A filter no row passes selects nothing. */
  lemma {:induction false} WhereNone(rows: seq<Asteroid>, f: Asteroid -> bool)
    requires forall a :: a in rows ==> !f(a)
    ensures Where(rows, f) == []
    decreases |rows|
  {
    if rows != [] {
      WhereNone(rows[1..], f);
    }
  }

  // ------------------------------------------------- get_hazardous_objs

  /** `SELECT * FROM asteroids WHERE hazard = true`; a NULL flag does not match. */
  function GetHazardousObjs(table: seq<Asteroid>): (r: seq<Asteroid>)
    ensures forall a :: a in r <==> a in table && a.hazard == Some(true)
  {
    Where(table, (a: Asteroid) => a.hazard == Some(true))
  }

  // -------------------------------------------------- get_top_n_largest

  datatype QueryError = NegativeLimit

  /** `max_d > 0`: a NULL diameter does not qualify. */
  predicate Qualifies(a: Asteroid)
  {
    a.maxD.Some? && a.maxD.value > 0.0
  }

  /** The sort key of a row, the maximum diameter; rows without one never reach the sort. */
  function Size(a: Asteroid): real
  {
    match a.maxD
    case Some(d) => d
    case None => 0.0
  }

  /** Rows ordered by maximum diameter, largest first. */
  ghost predicate SortedBySizeDesc(s: seq<Asteroid>)
  {
    forall i, j :: 0 <= i < j < |s| ==> Size(s[i]) >= Size(s[j])
  }

  /** Insert a row after every row at least as large as it. */
  function InsertBySize(a: Asteroid, s: seq<Asteroid>): (r: seq<Asteroid>)
    ensures |r| == |s| + 1
  {
    if s == [] then [a]
    else if Size(s[0]) >= Size(a) then [s[0]] + InsertBySize(a, s[1..])
    else [a] + s
  }

  lemma {:induction false} InsertPermutes(a: Asteroid, s: seq<Asteroid>)
    ensures multiset(InsertBySize(a, s)) == multiset(s) + multiset{a}
    decreases |s|
  {
    if s != [] {
      assert s == [s[0]] + s[1..];
      InsertPermutes(a, s[1..]);
    }
  }

  /** A row no smaller than every row of a sorted sequence can lead it. */
  lemma SortedCons(h: Asteroid, t: seq<Asteroid>)
    requires SortedBySizeDesc(t)
    requires forall x :: x in t ==> Size(h) >= Size(x)
    ensures SortedBySizeDesc([h] + t)
  {
    var r := [h] + t;
    forall i, j | 0 <= i < j < |r| ensures Size(r[i]) >= Size(r[j]) {
      assert r[j] == t[j - 1];
      if i > 0 {
        assert r[i] == t[i - 1];
      }
    }
  }

  lemma {:induction false} InsertKeepsSorted(a: Asteroid, s: seq<Asteroid>)
    requires SortedBySizeDesc(s)
    ensures SortedBySizeDesc(InsertBySize(a, s))
    decreases |s|
  {
    if s == [] {
    } else if Size(s[0]) >= Size(a) {
      var rest := s[1..];
      assert SortedBySizeDesc(rest) by {
        forall i, j | 0 <= i < j < |rest| ensures Size(rest[i]) >= Size(rest[j]) {
          assert rest[i] == s[i + 1] && rest[j] == s[j + 1];
        }
      }
      InsertKeepsSorted(a, rest);
      InsertPermutes(a, rest);
      var tail := InsertBySize(a, rest);
      forall x | x in tail ensures Size(s[0]) >= Size(x) {
        assert x in multiset(tail);
        if x != a {
          assert x in multiset(rest);
          var j :| 0 <= j < |rest| && rest[j] == x;
          assert s[j + 1] == x;
        }
      }
      SortedCons(s[0], tail);
    } else {
      forall x | x in s ensures Size(a) >= Size(x) {
        var j :| 0 <= j < |s| && s[j] == x;
        assert Size(s[0]) >= Size(s[j]) || j == 0;
      }
      SortedCons(a, s);
    }
  }

  /** `ORDER BY max_d DESC`, stable among rows of equal size. */
  function SortBySizeDesc(s: seq<Asteroid>): (r: seq<Asteroid>)
    ensures |r| == |s|
  {
    if s == [] then [] else InsertBySize(s[0], SortBySizeDesc(s[1..]))
  }

  /** The sort orders the rows largest first and keeps every row, as often as it occurs. */
  lemma {:induction false} SortSortsAndPermutes(s: seq<Asteroid>)
    ensures SortedBySizeDesc(SortBySizeDesc(s))
    ensures multiset(SortBySizeDesc(s)) == multiset(s)
    decreases |s|
  {
    if s != [] {
      var t := SortBySizeDesc(s[1..]);
      assert SortBySizeDesc(s) == InsertBySize(s[0], t);
      SortSortsAndPermutes(s[1..]);
      InsertKeepsSorted(s[0], t);
      InsertPermutes(s[0], t);
      assert s == [s[0]] + s[1..];
      assert multiset(s) == multiset([s[0]]) + multiset(s[1..]);
    }
  }

  /**
   * `SELECT * ... WHERE max_d > 0 ORDER BY max_d DESC LIMIT topN`. No limit
   * (`None`) returns every qualifying row; a negative limit is refused by the database.
   */
  function GetTopNLargest(table: seq<Asteroid>, topN: Option<int>): (r: Result<seq<Asteroid>, QueryError>)
    ensures r.Err? <==> topN.Some? && topN.value < 0
  {
    var ranked := SortBySizeDesc(Where(table, Qualifies));
    match topN
    case None => Ok(ranked)
    case Some(n) => if n < 0 then Err(NegativeLimit) else Ok(ranked[..Min(n, |ranked|)])
  }

  /** The limit the LargestQuery body uses when it names none. */
  const DefaultTopN: int := 10

  /** A request that names no limit gets the ten largest qualifying rows, or all of them when fewer qualify. */
  lemma DefaultLimit(table: seq<Asteroid>)
    ensures GetTopNLargest(table, Some(DefaultTopN)).Ok?
    ensures |GetTopNLargest(table, Some(DefaultTopN)).value| == Min(10, |Where(table, Qualifies)|)
  {
    TopNLargest(table, Some(DefaultTopN));
  }

  /**
   * The N largest: only rows with a positive diameter, largest first, as
   * many as the limit allows, drawn from the qualifying rows, and no row
   * left out is larger than a row returned.
   */
  lemma TopNLargest(table: seq<Asteroid>, topN: Option<int>)
    requires GetTopNLargest(table, topN).Ok?
    ensures var r := GetTopNLargest(table, topN).value;
      var qualifying := Where(table, Qualifies);
      && (forall a :: a in r ==> a in table && Qualifies(a))
      && SortedBySizeDesc(r)
      && |r| == (if topN.None? then |qualifying| else Min(topN.value, |qualifying|))
      && multiset(r) <= multiset(qualifying)
      && forall x, y :: x in r && y in multiset(qualifying) - multiset(r) ==> Size(x) >= Size(y)
  {
    var qualifying := Where(table, Qualifies);
    var ranked := SortBySizeDesc(qualifying);
    SortSortsAndPermutes(qualifying);
    var r := GetTopNLargest(table, topN).value;
    assert r == ranked[..|r|];
    SortedPrefix(ranked, |r|);
    forall a | a in r ensures a in table && Qualifies(a) {
      assert a in multiset(r);
      assert a in multiset(qualifying);
    }
  }

  /** A prefix of a sorted sequence is sorted, and none of the rows after it is larger than a row in it. */
  lemma SortedPrefix(ranked: seq<Asteroid>, k: nat)
    requires SortedBySizeDesc(ranked) && k <= |ranked|
    ensures SortedBySizeDesc(ranked[..k])
    ensures multiset(ranked[..k]) <= multiset(ranked)
    ensures forall x, y :: x in ranked[..k] && y in multiset(ranked) - multiset(ranked[..k]) ==> Size(x) >= Size(y)
  {
    SuffixIsRest(ranked, k);
    PrefixDominates(ranked, k);
  }

  lemma SuffixIsRest(ranked: seq<Asteroid>, k: nat)
    requires k <= |ranked|
    ensures multiset(ranked[..k]) <= multiset(ranked)
    ensures multiset(ranked) - multiset(ranked[..k]) == multiset(ranked[k..])
  {
    assert ranked == ranked[..k] + ranked[k..];
  }

  lemma PrefixDominates(ranked: seq<Asteroid>, k: nat)
    requires SortedBySizeDesc(ranked) && k <= |ranked|
    ensures forall x, y :: x in ranked[..k] && y in ranked[k..] ==> Size(x) >= Size(y)
  {
    forall x, y | x in ranked[..k] && y in ranked[k..] ensures Size(x) >= Size(y) {
      var i :| 0 <= i < k && ranked[..k][i] == x;
      var j :| 0 <= j < |ranked| - k && ranked[k..][j] == y;
      assert ranked[i] == x && ranked[k + j] == y;
    }
  }

  // ------------------------------------------------------------- ILIKE

  /** Case folding of ILIKE, on ASCII letters. */
  function Fold(c: char): char
  {
    if 'A' <= c <= 'Z' then (c as int + 32) as char else c
  }

  /**
   * SQL `LIKE` of `s` against pattern `p`, ignoring case: '%' matches any
   * run of characters, '_' any one character, every other character itself.
   */
  function ILike(s: string, p: string): (r: bool)
    ensures s == p ==> r
    decreases |s| + |p|
  {
    if p == [] then s == []
    else if p[0] == '%' then ILike(s, p[1..]) || (s != [] && ILike(s[1..], p))
    else s != [] && (p[0] == '_' || Fold(s[0]) == Fold(p[0])) && ILike(s[1..], p[1..])
  }

  /** A pattern without wildcards. */
  predicate Literal(p: string)
  {
    forall i :: 0 <= i < |p| ==> p[i] != '%' && p[i] != '_'
  }

  /** `s` starts with `p`, ignoring case. */
  ghost predicate FoldPrefix(p: string, s: string)
  {
    |p| <= |s| && forall i :: 0 <= i < |p| ==> Fold(s[i]) == Fold(p[i])
  }

  /** `p` occurs somewhere in `s`, ignoring case. */
  ghost predicate ContainsFold(s: string, p: string)
  {
    exists i :: 0 <= i <= |s| && FoldPrefix(p, s[i..])
  }

  /** A lone '%' matches every string. */
  lemma {:induction false} ILikeAnyRest(s: string)
    ensures ILike(s, "%")
    decreases |s|
  {
    if s != [] {
      ILikeAnyRest(s[1..]);
    }
  }

  /** A literal pattern followed by '%' matches exactly the strings that start with it. */
  lemma {:induction false} ILikeLiteralPrefix(s: string, p: string)
    requires Literal(p)
    ensures ILike(s, p + "%") <==> FoldPrefix(p, s)
    decreases |p|
  {
    if p == [] {
      assert p + "%" == "%";
      ILikeAnyRest(s);
    } else {
      assert (p + "%")[0] == p[0] && (p + "%")[1..] == p[1..] + "%";
      if s != [] {
        assert Literal(p[1..]) by {
          forall i | 0 <= i < |p[1..]| ensures p[1..][i] != '%' && p[1..][i] != '_' {
            assert p[1..][i] == p[i + 1];
          }
        }
        ILikeLiteralPrefix(s[1..], p[1..]);
        if FoldPrefix(p[1..], s[1..]) && Fold(s[0]) == Fold(p[0]) {
          forall i | 0 <= i < |p| ensures Fold(s[i]) == Fold(p[i]) {
            if i > 0 {
              assert s[1..][i - 1] == s[i] && p[1..][i - 1] == p[i];
            }
          }
        }
        if FoldPrefix(p, s) {
          forall i | 0 <= i < |p[1..]| ensures Fold(s[1..][i]) == Fold(p[1..][i]) {
            assert s[1..][i] == s[i + 1] && p[1..][i] == p[i + 1];
          }
        }
      }
    }
  }

  /** A leading '%' lets the rest of the pattern match at any position. */
  lemma {:induction false} ILikeLeadingPercent(s: string, q: string)
    ensures ILike(s, "%" + q) <==> exists i :: 0 <= i <= |s| && ILike(s[i..], q)
    decreases |s|
  {
    assert ("%" + q)[0] == '%' && ("%" + q)[1..] == q;
    assert s[0..] == s;
    if s != [] {
      ILikeLeadingPercent(s[1..], q);
      if ILike(s[1..], "%" + q) {
        var i :| 0 <= i <= |s[1..]| && ILike(s[1..][i..], q);
        assert s[1..][i..] == s[i + 1..];
      }
      if exists i :: 0 <= i <= |s| && ILike(s[i..], q) {
        var i :| 0 <= i <= |s| && ILike(s[i..], q);
        if i > 0 {
          assert s[1..][i - 1..] == s[i..];
        }
      }
    }
  }

  /** `ilike('%' + name + '%')` is a case-insensitive substring test when the name holds no wildcard. */
  lemma ILikeIsSubstring(s: string, name: string)
    requires Literal(name)
    ensures ILike(s, "%" + name + "%") <==> ContainsFold(s, name)
  {
    assert "%" + name + "%" == "%" + (name + "%");
    ILikeLeadingPercent(s, name + "%");
    forall i | 0 <= i <= |s|
      ensures ILike(s[i..], name + "%") <==> FoldPrefix(name, s[i..])
    {
      ILikeLiteralPrefix(s[i..], name);
    }
  }

  // --------------------------------------------------- search_asteroids

  /** The body of a search request; every filter is optional. */
  datatype SearchQuery = SearchQuery(
    name: Option<string>,
    absMagMin: Option<real>,
    absMagMax: Option<real>,
    diameterMin: Option<real>,
    diameterMax: Option<real>,
    inclinationMin: Option<real>,
    inclinationMax: Option<real>)

  /** One SQL condition of the search's WHERE clause. */
  datatype Condition =
    | NameLike(pattern: string)
    | AbsMagAtLeast(bound: real)
    | AbsMagAtMost(bound: real)
    | MinDAtLeast(bound: real)
    | MaxDAtMost(bound: real)
    | InclinationAtLeast(bound: real)
    | InclinationAtMost(bound: real)

  /** A condition on a row: a NULL column makes the comparison unknown, which does not select the row. */
  predicate Holds(c: Condition, a: Asteroid)
  {
    match c
    case NameLike(p) => NameContains(a.name, p)
    case AbsMagAtLeast(b) => a.absMag.Some? && a.absMag.value >= b
    case AbsMagAtMost(b) => a.absMag.Some? && a.absMag.value <= b
    case MinDAtLeast(b) => a.minD.Some? && a.minD.value >= b
    case MaxDAtMost(b) => a.maxD.Some? && a.maxD.value <= b
    case InclinationAtLeast(b) => a.inclination.Some? && a.inclination.value >= b
    case InclinationAtMost(b) => a.inclination.Some? && a.inclination.value <= b
  }

  /** `name ILIKE '%p%'`; a NULL name never matches. */
  predicate NameContains(name: Option<string>, p: string)
  {
    name.Some? && ILike(name.value, "%" + p + "%")
  }

  /** `and_(*conditions)`. */
  predicate AllHold(conds: seq<Condition>, a: Asteroid)
  {
    forall i :: 0 <= i < |conds| ==> Holds(conds[i], a)
  }

  /** The name filter is set only by a non-empty string. */
  predicate NameSet(q: SearchQuery)
  {
    q.name.Some? && q.name.value != ""
  }

  predicate NoFilters(q: SearchQuery)
  {
    && !NameSet(q)
    && q.absMagMin.None? && q.absMagMax.None?
    && q.diameterMin.None? && q.diameterMax.None?
    && q.inclinationMin.None? && q.inclinationMax.None?
  }

  /** A lower bound that is absent, or met by a present value. */
  predicate AtLeast(v: Option<real>, bound: Option<real>)
  {
    bound.Some? ==> v.Some? && v.value >= bound.value
  }

  /** An upper bound that is absent, or met by a present value. */
  predicate AtMost(v: Option<real>, bound: Option<real>)
  {
    bound.Some? ==> v.Some? && v.value <= bound.value
  }

  /**
   * The row satisfies every filter the query sets: the name contains the
   * query's name (as an ILIKE pattern), `diameterMin` bounds `min_d`,
   * `diameterMax` bounds `max_d`, and the magnitude and inclination bounds
   * bound their columns.
   */
  predicate Matches(q: SearchQuery, a: Asteroid): (r: bool)
    ensures NoFilters(q) ==> r
    ensures r && NameSet(q) ==> a.name.Some?
  {
    && (NameSet(q) ==> NameContains(a.name, q.name.value))
    && AtLeast(a.absMag, q.absMagMin) && AtMost(a.absMag, q.absMagMax)
    && AtLeast(a.minD, q.diameterMin) && AtMost(a.maxD, q.diameterMax)
    && AtLeast(a.inclination, q.inclinationMin) && AtMost(a.inclination, q.inclinationMax)
  }

  /** The conditions `search_asteroids` collects, one per filter that is set, in its order. */
  method BuildConditions(q: SearchQuery) returns (conds: seq<Condition>)
    ensures forall a :: AllHold(conds, a) <==> Matches(q, a)
    ensures conds == [] <==> NoFilters(q)
  {
    conds := [];
    if q.name.Some? && q.name.value != "" {
      conds := conds + [NameLike(q.name.value)];
    }
    ghost var c0 := conds;
    if q.absMagMin.Some? {
      conds := conds + [AbsMagAtLeast(q.absMagMin.value)];
    }
    ghost var c1 := conds;
    if q.absMagMax.Some? {
      conds := conds + [AbsMagAtMost(q.absMagMax.value)];
    }
    ghost var c2 := conds;
    if q.diameterMin.Some? {
      conds := conds + [MinDAtLeast(q.diameterMin.value)];
    }
    ghost var c3 := conds;
    if q.diameterMax.Some? {
      conds := conds + [MaxDAtMost(q.diameterMax.value)];
    }
    ghost var c4 := conds;
    if q.inclinationMin.Some? {
      conds := conds + [InclinationAtLeast(q.inclinationMin.value)];
    }
    ghost var c5 := conds;
    if q.inclinationMax.Some? {
      conds := conds + [InclinationAtMost(q.inclinationMax.value)];
    }
    CollectedMeans(q, c0, c1, c2, c3, c4, c5, conds);
    CollectedEmpty(q, c0, c1, c2, c3, c4, c5, conds);
  }

  /** The list grows by one condition exactly when its filter is set. */
  predicate Step(before: seq<Condition>, after: seq<Condition>, isSet: bool, c: Condition)
  {
    after == if isSet then before + [c] else before
  }

  /** The seven steps of `BuildConditions`, one per filter, mean `Matches`. */
  lemma CollectedMeans(q: SearchQuery, c0: seq<Condition>, c1: seq<Condition>, c2: seq<Condition>,
                      c3: seq<Condition>, c4: seq<Condition>, c5: seq<Condition>, c6: seq<Condition>)
    requires Step([], c0, NameSet(q), NameLike(if q.name.Some? then q.name.value else ""))
    requires Step(c0, c1, q.absMagMin.Some?, AbsMagAtLeast(if q.absMagMin.Some? then q.absMagMin.value else 0.0))
    requires Step(c1, c2, q.absMagMax.Some?, AbsMagAtMost(if q.absMagMax.Some? then q.absMagMax.value else 0.0))
    requires Step(c2, c3, q.diameterMin.Some?, MinDAtLeast(if q.diameterMin.Some? then q.diameterMin.value else 0.0))
    requires Step(c3, c4, q.diameterMax.Some?, MaxDAtMost(if q.diameterMax.Some? then q.diameterMax.value else 0.0))
    requires Step(c4, c5, q.inclinationMin.Some?, InclinationAtLeast(if q.inclinationMin.Some? then q.inclinationMin.value else 0.0))
    requires Step(c5, c6, q.inclinationMax.Some?, InclinationAtMost(if q.inclinationMax.Some? then q.inclinationMax.value else 0.0))
    ensures forall a :: AllHold(c6, a) <==> Matches(q, a)
  {
    forall a ensures AllHold(c6, a) <==> Matches(q, a) {
      assert AllHold(c0, a) <==> (NameSet(q) ==> NameContains(a.name, q.name.value)) by {
        StepHolds([], c0, NameSet(q), NameLike(if q.name.Some? then q.name.value else ""), a);
      }
      assert AllHold(c1, a) <==> AllHold(c0, a) && AtLeast(a.absMag, q.absMagMin) by {
        StepHolds(c0, c1, q.absMagMin.Some?, AbsMagAtLeast(if q.absMagMin.Some? then q.absMagMin.value else 0.0), a);
      }
      assert AllHold(c2, a) <==> AllHold(c1, a) && AtMost(a.absMag, q.absMagMax) by {
        StepHolds(c1, c2, q.absMagMax.Some?, AbsMagAtMost(if q.absMagMax.Some? then q.absMagMax.value else 0.0), a);
      }
      assert AllHold(c3, a) <==> AllHold(c2, a) && AtLeast(a.minD, q.diameterMin) by {
        StepHolds(c2, c3, q.diameterMin.Some?, MinDAtLeast(if q.diameterMin.Some? then q.diameterMin.value else 0.0), a);
      }
      assert AllHold(c4, a) <==> AllHold(c3, a) && AtMost(a.maxD, q.diameterMax) by {
        StepHolds(c3, c4, q.diameterMax.Some?, MaxDAtMost(if q.diameterMax.Some? then q.diameterMax.value else 0.0), a);
      }
      assert AllHold(c5, a) <==> AllHold(c4, a) && AtLeast(a.inclination, q.inclinationMin) by {
        StepHolds(c4, c5, q.inclinationMin.Some?, InclinationAtLeast(if q.inclinationMin.Some? then q.inclinationMin.value else 0.0), a);
      }
      assert AllHold(c6, a) <==> AllHold(c5, a) && AtMost(a.inclination, q.inclinationMax) by {
        StepHolds(c5, c6, q.inclinationMax.Some?, InclinationAtMost(if q.inclinationMax.Some? then q.inclinationMax.value else 0.0), a);
      }
    }
  }

  /** The seven steps of `BuildConditions` collect nothing exactly when no filter is set. */
  lemma CollectedEmpty(q: SearchQuery, c0: seq<Condition>, c1: seq<Condition>, c2: seq<Condition>,
                      c3: seq<Condition>, c4: seq<Condition>, c5: seq<Condition>, c6: seq<Condition>)
    requires Step([], c0, NameSet(q), NameLike(if q.name.Some? then q.name.value else ""))
    requires Step(c0, c1, q.absMagMin.Some?, AbsMagAtLeast(if q.absMagMin.Some? then q.absMagMin.value else 0.0))
    requires Step(c1, c2, q.absMagMax.Some?, AbsMagAtMost(if q.absMagMax.Some? then q.absMagMax.value else 0.0))
    requires Step(c2, c3, q.diameterMin.Some?, MinDAtLeast(if q.diameterMin.Some? then q.diameterMin.value else 0.0))
    requires Step(c3, c4, q.diameterMax.Some?, MaxDAtMost(if q.diameterMax.Some? then q.diameterMax.value else 0.0))
    requires Step(c4, c5, q.inclinationMin.Some?, InclinationAtLeast(if q.inclinationMin.Some? then q.inclinationMin.value else 0.0))
    requires Step(c5, c6, q.inclinationMax.Some?, InclinationAtMost(if q.inclinationMax.Some? then q.inclinationMax.value else 0.0))
    ensures c6 == [] <==> NoFilters(q)
  {
    assert |c0| == if NameSet(q) then 1 else 0;
    assert |c1| == |c0| + if q.absMagMin.Some? then 1 else 0;
    assert |c2| == |c1| + if q.absMagMax.Some? then 1 else 0;
    assert |c3| == |c2| + if q.diameterMin.Some? then 1 else 0;
    assert |c4| == |c3| + if q.diameterMax.Some? then 1 else 0;
    assert |c5| == |c4| + if q.inclinationMin.Some? then 1 else 0;
    assert |c6| == |c5| + if q.inclinationMax.Some? then 1 else 0;
  }

  /** One step conjoins its condition when its filter is set. */
  lemma StepHolds(before: seq<Condition>, after: seq<Condition>, isSet: bool, c: Condition, a: Asteroid)
    requires Step(before, after, isSet, c)
    ensures AllHold(after, a) <==> AllHold(before, a) && (isSet ==> Holds(c, a))
  {
    if isSet {
      AllHoldSnoc(before, c);
    }
  }

  /** Appending a condition conjoins it. */
  lemma AllHoldSnoc(conds: seq<Condition>, c: Condition)
    ensures forall a :: AllHold(conds + [c], a) <==> AllHold(conds, a) && Holds(c, a)
  {
    forall a ensures AllHold(conds + [c], a) <==> AllHold(conds, a) && Holds(c, a) {
      if AllHold(conds, a) && Holds(c, a) {
        forall i | 0 <= i < |conds + [c]| ensures Holds((conds + [c])[i], a) {
          if i < |conds| { assert (conds + [c])[i] == conds[i]; }
        }
      }
      if AllHold(conds + [c], a) {
        assert Holds((conds + [c])[|conds|], a);
        forall i | 0 <= i < |conds| ensures Holds(conds[i], a) {
          assert (conds + [c])[i] == conds[i];
        }
      }
    }
  }

  /** The rows a search returns. */
  function Search(table: seq<Asteroid>, q: SearchQuery): (r: seq<Asteroid>)
    ensures forall a :: a in r <==> a in table && Matches(q, a)
  {
    Where(table, a => Matches(q, a))
  }

  /** `search_asteroids`: a WHERE clause only when some condition was collected. */
  method SearchAsteroids(table: seq<Asteroid>, q: SearchQuery) returns (rows: seq<Asteroid>)
    ensures rows == Search(table, q)
  {
    var conds := BuildConditions(q);
    if conds == [] {
      rows := table;
      WhereAll(table, a => Matches(q, a));
    } else {
      rows := Where(table, a => AllHold(conds, a));
      WhereAgree(table, a => AllHold(conds, a), a => Matches(q, a));
    }
  }

  /** With no filter set the search returns the whole table. */
  lemma NoFiltersReturnsAll(table: seq<Asteroid>, q: SearchQuery)
    requires NoFilters(q)
    ensures Search(table, q) == table
  {
    WhereAll(table, a => Matches(q, a));
  }

  /** `q2` sets every filter `q1` sets, to the same value, and possibly more. */
  predicate Narrows(q2: SearchQuery, q1: SearchQuery)
  {
    && (NameSet(q1) ==> q2.name == q1.name)
    && (q1.absMagMin.Some? ==> q2.absMagMin == q1.absMagMin)
    && (q1.absMagMax.Some? ==> q2.absMagMax == q1.absMagMax)
    && (q1.diameterMin.Some? ==> q2.diameterMin == q1.diameterMin)
    && (q1.diameterMax.Some? ==> q2.diameterMax == q1.diameterMax)
    && (q1.inclinationMin.Some? ==> q2.inclinationMin == q1.inclinationMin)
    && (q1.inclinationMax.Some? ==> q2.inclinationMax == q1.inclinationMax)
  }

  /** Filters are combined by conjunction, so adding one never enlarges the result. */
  lemma AddingFiltersNarrows(table: seq<Asteroid>, q1: SearchQuery, q2: SearchQuery)
    requires Narrows(q2, q1)
    ensures multiset(Search(table, q2)) <= multiset(Search(table, q1))
  {
    WhereMonotone(table, a => Matches(q2, a), a => Matches(q1, a));
  }

  /** An empty name is no filter at all. */
  lemma EmptyNameIsNoFilter(q: SearchQuery, a: Asteroid)
    requires q.name == Some("")
    ensures Matches(q, a) == Matches(q.(name := None), a)
  {
  }

  /** A bound of 0.0 is a real bound: it excludes negative values and rows where the column is NULL. */
  lemma ZeroBoundApplies(q: SearchQuery, a: Asteroid)
    requires q.absMagMin == Some(0.0)
    requires a.absMag.None? || a.absMag.value < 0.0
    ensures !Matches(q, a)
  {
  }

  // ---------------------------------------------------- fillna('null')

  /** One value of a returned JSON record. */
  datatype Cell = CStr(s: string) | CReal(x: real) | CBool(b: bool)

  /** A returned record: the twelve columns, with NULL replaced by the string 'null'. */
  datatype OutRow = OutRow(
    id: Cell, name: Cell, absMag: Cell, minD: Cell, maxD: Cell, hazard: Cell,
    eccentricity: Cell, semiMajAx: Cell, inclination: Cell, ascendingNodeLon: Cell,
    perihelionDist: Cell, aphelionDist: Cell)

  function RealCell(v: Option<real>): (c: Cell)
    ensures c == CStr("null") <==> v.None?
  {
    match v
    case Some(x) => CReal(x)
    case None => CStr("null")
  }

  function StrCell(v: Option<string>): (c: Cell)
    ensures v.None? ==> c == CStr("null")
    ensures v.Some? ==> c == CStr(v.value)
  {
    match v
    case Some(x) => CStr(x)
    case None => CStr("null")
  }

  /** The number a returned cell holds, if any: the inverse of `RealCell`. */
  function RealOf(c: Cell): Option<real>
  {
    match c
    case CReal(x) => Some(x)
    case _ => None
  }

  /** The flag a returned cell holds, if any: the inverse of `BoolCell`. */
  function BoolOf(c: Cell): Option<bool>
  {
    match c
    case CBool(b) => Some(b)
    case _ => None
  }

  function BoolCell(v: Option<bool>): (c: Cell)
    ensures c == CStr("null") <==> v.None?
  {
    match v
    case Some(x) => CBool(x)
    case None => CStr("null")
  }

  /** `fillna('null')` then `to_dict(orient='records')` for one row. */
  function ToRecord(a: Asteroid): (r: OutRow)
    ensures r.id == CStr(a.id)
    ensures RealOf(r.absMag) == a.absMag && RealOf(r.minD) == a.minD && RealOf(r.maxD) == a.maxD
    ensures BoolOf(r.hazard) == a.hazard
    ensures RealOf(r.eccentricity) == a.eccentricity && RealOf(r.semiMajAx) == a.semiMajAx
    ensures RealOf(r.inclination) == a.inclination && RealOf(r.ascendingNodeLon) == a.ascendingNodeLon
    ensures RealOf(r.perihelionDist) == a.perihelionDist && RealOf(r.aphelionDist) == a.aphelionDist
  {
    OutRow(CStr(a.id), StrCell(a.name), RealCell(a.absMag), RealCell(a.minD), RealCell(a.maxD),
           BoolCell(a.hazard), RealCell(a.eccentricity), RealCell(a.semiMajAx), RealCell(a.inclination),
           RealCell(a.ascendingNodeLon), RealCell(a.perihelionDist), RealCell(a.aphelionDist))
  }

  /** What every read returns: its rows as records, in the same order. */
  function ToRecords(rows: seq<Asteroid>): (r: seq<OutRow>)
    ensures |r| == |rows|
    ensures forall i :: 0 <= i < |rows| ==> r[i] == ToRecord(rows[i])
  {
    if rows == [] then [] else [ToRecord(rows[0])] + ToRecords(rows[1..])
  }

  /**
   * In a returned record a numeric or flag column reads 'null' exactly when
   * it is NULL in the table; a NULL name reads 'null' too, but so does the
   * name "null" itself.
   */
  lemma NullsBecomeNullString(a: Asteroid)
    ensures var r := ToRecord(a);
      && (r.absMag == CStr("null") <==> a.absMag.None?)
      && (r.minD == CStr("null") <==> a.minD.None?)
      && (r.maxD == CStr("null") <==> a.maxD.None?)
      && (r.hazard == CStr("null") <==> a.hazard.None?)
      && (r.eccentricity == CStr("null") <==> a.eccentricity.None?)
      && (r.semiMajAx == CStr("null") <==> a.semiMajAx.None?)
      && (r.inclination == CStr("null") <==> a.inclination.None?)
      && (r.ascendingNodeLon == CStr("null") <==> a.ascendingNodeLon.None?)
      && (r.perihelionDist == CStr("null") <==> a.perihelionDist.None?)
      && (r.aphelionDist == CStr("null") <==> a.aphelionDist.None?)
      && (a.name.None? ==> r.name == CStr("null"))
      && (r.name == CStr("null") <==> a.name.None? || a.name == Some("null"))
  {
  }
}
