/** The query-engine operations the pipeline's SQL uses, over tables held as sequences of
    rows. A table's row order carries no meaning in SQL; the properties below are about
    which rows, and how many copies, a result holds. */
module Relational {
  import opened Wrappers

  /** A query that computes a row from each input row: it either yields one row per input
      row, in order, or fails as a whole when one row fails (as a `STRPTIME` that cannot
      parse aborts the query). */
  function MapAll<A, B>(xs: seq<A>, f: A -> Option<B>): (r: Option<seq<B>>)
    ensures r.Some? <==> forall i :: 0 <= i < |xs| ==> f(xs[i]).Some?
    ensures r.Some? ==> |r.value| == |xs| && forall i :: 0 <= i < |xs| ==> f(xs[i]) == Some(r.value[i])
  {
    if xs == [] then Some([])
    else
      match f(xs[0])
      case None => None
      case Some(y) =>
        match MapAll(xs[1..], f)
        case None =>
          assert exists i :: 1 <= i < |xs| && f(xs[i]).None? by {
            var j :| 0 <= j < |xs[1..]| && f(xs[1..][j]).None?;
            assert xs[1..][j] == xs[j + 1];
          }
          None
        case Some(ys) => Some([y] + ys)
  }

  predicate NoDup<T(==)>(s: seq<T>) {
    forall i, j :: 0 <= i < j < |s| ==> s[i] != s[j]
  }

  /** `SELECT DISTINCT`: one copy of each row (here the first, in order). */
  function Distinct<T(==,!new)>(s: seq<T>): (r: seq<T>)
    ensures NoDup(r)
    ensures forall x :: x in r <==> x in s
    ensures |r| <= |s|
    ensures NoDup(s) ==> r == s
  {
    if s == [] then []
    else
      var init, last := s[..|s| - 1], s[|s| - 1];
      assert s == init + [last];
      var r := Distinct(init);
      if last in r then r else r + [last]
  }

  /** `a UNION b`: the rows of either, each once. */
  function Union<T(==,!new)>(a: seq<T>, b: seq<T>): (r: seq<T>)
    ensures NoDup(r)
    ensures forall x :: x in r <==> x in a || x in b
  {
    Distinct(a + b)
  }

  /** Distinct keeps rows in their order, so it keeps a sorted table sorted. */
  lemma {:induction false} DistinctKeepsOrder<T(!new)>(s: seq<T>, le: (T, T) -> bool)
    requires forall i, j :: 0 <= i < j < |s| ==> le(s[i], s[j])
    ensures forall i, j :: 0 <= i < j < |Distinct(s)| ==> le(Distinct(s)[i], Distinct(s)[j])
    decreases |s|
  {
    if s != [] {
      var init, last := s[..|s| - 1], s[|s| - 1];
      DistinctKeepsOrder(init, le);
      var r := Distinct(init);
      forall x | x in r ensures le(x, last) {
        var i :| 0 <= i < |init| && init[i] == x;
      }
    }
  }

  /** The set of values a column holds. */
  function Column<R(==), K>(rows: seq<R>, col: R -> K): set<K> {
    set x | x in rows :: col(x)
  }

  /** `SELECT project(s) FROM source WHERE key(s) NOT IN stored` (keys are never NULL). */
  function SelectNotIn<S(!new), R(!new), K(==)>(source: seq<S>, project: S -> R, key: S -> K, stored: set<K>): (r: seq<R>)
    ensures forall s :: s in source && key(s) !in stored ==> project(s) in r
    ensures forall x :: x in r ==> exists s :: s in source && key(s) !in stored && x == project(s)
  {
    if source == [] then []
    else
      var rest := SelectNotIn(source[1..], project, key, stored);
      assert forall s :: s in source[1..] ==> s in source;
      if key(source[0]) in stored then rest else [project(source[0])] + rest
  }

  /** With nothing stored, the filter keeps every source row, in order. */
  lemma {:induction false} SelectNotInNothingStored<S(!new), R(!new), K>(source: seq<S>, project: S -> R, key: S -> K)
    ensures SelectNotIn(source, project, key, {}) == seq(|source|, i requires 0 <= i < |source| => project(source[i]))
  {
    if source != [] {
      SelectNotInNothingStored(source[1..], project, key);
    }
  }

  /** The incremental load of a dimension when its snapshot exists:
      `SELECT DISTINCT project(s) FROM source WHERE sourceKey(s) NOT IN (SELECT key FROM existing)
       UNION SELECT * FROM existing`. */
  function MergeDimension<S(!new), R(==,!new), K(==)>(
    existing: seq<R>, source: seq<S>, project: S -> R, sourceKey: S -> K, storedKey: R -> K): (r: seq<R>)
    ensures NoDup(r)
    ensures forall x :: x in existing ==> x in r
    ensures forall s :: s in source && sourceKey(s) !in Column(existing, storedKey) ==> project(s) in r
    ensures forall x :: x in r ==>
      x in existing || exists s :: s in source && sourceKey(s) !in Column(existing, storedKey) && x == project(s)
  {
    Union(Distinct(SelectNotIn(source, project, sourceKey, Column(existing, storedKey))), existing)
  }

  /** Running a merge a second time with the same batch adds nothing. */
  lemma MergeIdempotent<S(!new), R(!new), K>(
    existing: seq<R>, source: seq<S>, project: S -> R, sourceKey: S -> K, storedKey: R -> K)
    ensures var once := MergeDimension(existing, source, project, sourceKey, storedKey);
      forall x :: x in MergeDimension(once, source, project, sourceKey, storedKey) <==> x in once
  {
    var once := MergeDimension(existing, source, project, sourceKey, storedKey);
    var twice := MergeDimension(once, source, project, sourceKey, storedKey);
    assert forall x :: x in existing ==> storedKey(x) in Column(once, storedKey);

  }

  /** When the key compared is the key stored (the projection keeps the source key), a
      key already present never gets a second row: the first row written for a key wins. */
  lemma MergeFirstWriteWins<S(!new), R(!new), K>(
    existing: seq<R>, source: seq<S>, project: S -> R, sourceKey: S -> K, storedKey: R -> K)
    requires forall s :: storedKey(project(s)) == sourceKey(s)
    ensures var r := MergeDimension(existing, source, project, sourceKey, storedKey);
      (forall x :: x in r && storedKey(x) in Column(existing, storedKey) ==> x in existing)
      && Column(r, storedKey) == Column(existing, storedKey) + (set s | s in source :: sourceKey(s))
  {
    var r := MergeDimension(existing, source, project, sourceKey, storedKey);
    forall k | k in (set s | s in source :: sourceKey(s)) ensures k in Column(r, storedKey) {
      var s :| s in source && sourceKey(s) == k;
      if k !in Column(existing, storedKey) {
        assert project(s) in r;
      } else {
        var x :| x in existing && storedKey(x) == k;
        assert x in r;
      }
    }
    forall k | k in Column(r, storedKey) ensures k in Column(existing, storedKey) + (set s | s in source :: sourceKey(s)) {
      var x :| x in r && storedKey(x) == k;
      if x !in existing {
        var s :| s in source && sourceKey(s) !in Column(existing, storedKey) && x == project(s);
      }
    }
  }

  // ----- LEFT JOIN -----------------------------------------------------------------

  /** How many rows of `dim` have the key `key`. */
  function CountMatches<D, K(==)>(dim: seq<D>, dk: D -> K, key: K): nat {
    if dim == [] then 0 else (if dk(dim[0]) == key then 1 else 0) + CountMatches(dim[1..], dk, key)
  }

  function Repeat<T>(x: T, n: nat): (r: seq<T>)
    ensures |r| == n && forall i :: 0 <= i < n ==> r[i] == x
  {
    if n == 0 then [] else [x] + Repeat(x, n - 1)
  }

  /** At least one copy holds the row once more than the copies after the first, and
      nothing else. */
  lemma RepeatHolds<T>(x: T, n: nat)
    requires n >= 1
    ensures multiset{x} <= multiset(Repeat(x, n))
    ensures forall y :: y in Repeat(x, n) <==> y == x
  {
    assert Repeat(x, n) == [x] + Repeat(x, n - 1);
  }

  /** `SELECT rows.* FROM rows LEFT JOIN dim ON fk(row) = dk(d)`: each row once per matching
      dimension row, and once when nothing matches. */
  function LeftJoin<F(==,!new), D, K(==)>(rows: seq<F>, dim: seq<D>, fk: F -> K, dk: D -> K): (r: seq<F>)
    ensures multiset(rows) <= multiset(r)
    ensures forall x :: x in r <==> x in rows
    decreases |rows|
  {
    if rows == [] then []
    else
      var n := CountMatches(dim, dk, fk(rows[0]));
      var copies := if n == 0 then 1 else n;
      var rest := LeftJoin(rows[1..], dim, fk, dk);
      assert rows == [rows[0]] + rows[1..];
      RepeatHolds(rows[0], copies);
      Repeat(rows[0], copies) + rest
  }

  /** How many times the join writes one row with key `key`: once per matching dimension
      row, and once when none matches. */
  function JoinCopies<D, K(==)>(dim: seq<D>, dk: D -> K, key: K): (n: nat)
    ensures n >= 1 && n >= CountMatches(dim, dk, key)
    ensures CountMatches(dim, dk, key) >= 1 ==> n == CountMatches(dim, dk, key)
  {
    var m := CountMatches(dim, dk, key);
    if m == 0 then 1 else m
  }

  lemma {:induction false} RepeatCount<T>(x: T, n: nat, y: T)
    ensures multiset(Repeat(x, n))[y] == if y == x then n else 0
  {
    if n > 0 {
      assert Repeat(x, n) == [x] + Repeat(x, n - 1);
      RepeatCount(x, n - 1, y);
    }
  }

  lemma CountConcat<T>(a: seq<T>, b: seq<T>, x: T)
    ensures multiset(a + b)[x] == multiset(a)[x] + multiset(b)[x]
  {
  }

  lemma MulSucc(m: nat, c: nat)
    ensures (m + 1) * c == c + m * c
  {
  }

  /** The exact multiplicity of the join: each row of `rows` appears as often as it does
      in `rows`, times the copies its key earns. */
  lemma {:induction false} LeftJoinMultiplicity<F(!new), D, K>(rows: seq<F>, dim: seq<D>, fk: F -> K, dk: D -> K, x: F)
    ensures multiset(LeftJoin(rows, dim, fk, dk))[x] == multiset(rows)[x] * JoinCopies(dim, dk, fk(x))
    decreases |rows|
  {
    if rows != [] {
      var c0 := JoinCopies(dim, dk, fk(rows[0]));
      var cx := JoinCopies(dim, dk, fk(x));
      var rest := LeftJoin(rows[1..], dim, fk, dk);
      var m := multiset(rows[1..])[x];
      LeftJoinCons(rows, dim, fk, dk);
      assert LeftJoin(rows, dim, fk, dk) == Repeat(rows[0], c0) + rest;
      LeftJoinMultiplicity(rows[1..], dim, fk, dk, x);
      assert multiset(rest)[x] == m * cx;
      RepeatCount(rows[0], c0, x);
      CountConcat(Repeat(rows[0], c0), rest, x);
      assert rows == [rows[0]] + rows[1..];
      CountConcat([rows[0]], rows[1..], x);
      if x == rows[0] {
        assert multiset(rows)[x] == m + 1;
        MulSucc(m, cx);
      } else {
        assert multiset(rows)[x] == m;
      }
    }
  }

  /** No two rows of `dim` share a key. */
  predicate UniqueKeys<D, K(==)>(dim: seq<D>, dk: D -> K) {
    forall i, j :: 0 <= i < j < |dim| ==> dk(dim[i]) != dk(dim[j])
  }

  lemma {:induction false} UniqueKeysMatchAtMostOnce<D, K>(dim: seq<D>, dk: D -> K, key: K)
    requires UniqueKeys(dim, dk)
    ensures CountMatches(dim, dk, key) <= 1
  {
    if dim != [] {
      assert UniqueKeys(dim[1..], dk) by {
        forall i, j | 0 <= i < j < |dim[1..]| ensures dk(dim[1..][i]) != dk(dim[1..][j]) {
          assert dim[1..][i] == dim[i + 1] && dim[1..][j] == dim[j + 1];
        }
      }
      UniqueKeysMatchAtMostOnce(dim[1..], dk, key);
      if dk(dim[0]) == key {
        NoMatchAfter(dim, dk, key);
      }
    }
  }

  lemma {:induction false} NoMatchAfter<D, K>(dim: seq<D>, dk: D -> K, key: K)
    requires |dim| > 0 && UniqueKeys(dim, dk) && dk(dim[0]) == key
    ensures CountMatches(dim[1..], dk, key) == 0
  {
    var t := dim[1..];
    assert forall i :: 0 <= i < |t| ==> dk(t[i]) != key by {
      forall i | 0 <= i < |t| ensures dk(t[i]) != key {
        assert t[i] == dim[i + 1];
      }
    }
    NoKeyNoMatch(t, dk, key);
  }

  lemma {:induction false} NoKeyNoMatch<D, K>(dim: seq<D>, dk: D -> K, key: K)
    requires forall i :: 0 <= i < |dim| ==> dk(dim[i]) != key
    ensures CountMatches(dim, dk, key) == 0
  {
    if dim != [] {
      assert forall i :: 0 <= i < |dim[1..]| ==> dk(dim[1..][i]) != key by {
        forall i | 0 <= i < |dim[1..]| ensures dk(dim[1..][i]) != key {
          assert dim[1..][i] == dim[i + 1];
        }
      }
      NoKeyNoMatch(dim[1..], dk, key);
    }
  }

  /** Joining against a dimension whose keys are unique changes nothing. */
  lemma {:induction false} LeftJoinUniqueKeys<F(!new), D, K>(rows: seq<F>, dim: seq<D>, fk: F -> K, dk: D -> K)
    requires UniqueKeys(dim, dk)
    ensures LeftJoin(rows, dim, fk, dk) == rows
    decreases |rows|
  {
    if rows != [] {
      UniqueKeysMatchAtMostOnce(dim, dk, fk(rows[0]));
      LeftJoinUniqueKeys(rows[1..], dim, fk, dk);
      assert Repeat(rows[0], 1) == [rows[0]];
    }
  }

  /** The join of a non-empty list: the first row's copies, then the join of the rest. */
  lemma LeftJoinCons<F(!new), D, K>(rows: seq<F>, dim: seq<D>, fk: F -> K, dk: D -> K)
    requires rows != []
    ensures var n := CountMatches(dim, dk, fk(rows[0]));
      LeftJoin(rows, dim, fk, dk) == Repeat(rows[0], if n == 0 then 1 else n) + LeftJoin(rows[1..], dim, fk, dk)
  {
  }

  lemma CountMatchesTwice<D, K>(d: D, dk: D -> K)
    ensures CountMatches([d, d], dk, dk(d)) == 2
  {
    assert [d][1..] == [];
    assert CountMatches([d], dk, dk(d)) == 1;
    assert [d, d][1..] == [d];
  }

  lemma LeftJoinOneDoubleMatch<F(!new), D, K>(b: F, d: D, fk: F -> K, dk: D -> K)
    requires fk(b) == dk(d)
    ensures LeftJoin([b], [d, d], fk, dk) == [b, b]
  {
    CountMatchesTwice(d, dk);
    assert Repeat(b, 2) == [b, b];
    LeftJoinCons([b], [d, d], fk, dk);
    assert [b][1..] == [];
  }

  /** Two rows against a dimension holding the same matching row twice: each row comes out
      twice. */
  lemma LeftJoinDoubleMatch<F(!new), D, K>(a: F, b: F, d: D, fk: F -> K, dk: D -> K)
    requires fk(a) == dk(d) && fk(b) == dk(d)
    ensures LeftJoin([a, b], [d, d], fk, dk) == [a, a, b, b]
  {
    CountMatchesTwice(d, dk);
    assert Repeat(a, 2) == [a, a];
    LeftJoinOneDoubleMatch(b, d, fk, dk);
    LeftJoinCons([a, b], [d, d], fk, dk);
    assert [a, b][1..] == [b];
  }
}
