/**
  Generic operations on tables, where a table is a sequence of rows:
  pandas' `drop_duplicates` (exact full-row duplicates, first occurrence kept)
  and the primary-key check that follows it in both duplicate filters.
 */
module Tables {
  import opened Results

  /** No two rows of `s` are identical. */
  predicate NoDuplicates<T(==)>(s: seq<T>) {
    forall i, j :: 0 <= i < j < |s| ==> s[i] != s[j]
  }

  /** The position of the first occurrence of `x` in `s`. */
  function FirstIndex<T(==)>(s: seq<T>, x: T): (k: nat)
    requires x in s
    ensures k < |s| && s[k] == x && x !in s[..k]
  {
    if s[0] == x then 0
    else
      var k := FirstIndex(s[1..], x);
      assert s[..k + 1] == [s[0]] + s[1..][..k];
      k + 1
  }

  /** A first occurrence inside a prefix is the first occurrence in the whole sequence. */
  lemma FirstIndexInPrefix<T>(s: seq<T>, n: nat, x: T)
    requires n <= |s| && x in s[..n]
    ensures FirstIndex(s, x) == FirstIndex(s[..n], x)
  {
    var k := FirstIndex(s[..n], x);
    assert s[..n][..k] == s[..k];
  }

  /**
    Rows of `s` with exact duplicates removed, keeping the first occurrence of
    each distinct row (pandas `drop_duplicates()` with its default `keep="first"`).
   */
  function DropDuplicates<T(==)>(s: seq<T>): (r: seq<T>)
    ensures NoDuplicates(r)
    ensures forall i :: 0 <= i < |s| ==> s[i] in r
    ensures forall i :: 0 <= i < |r| ==> r[i] in s
    ensures multiset(r) <= multiset(s)
  {
    if |s| == 0 then []
    else
      var init := DropDuplicates(s[..|s| - 1]);
      var last := s[|s| - 1];
      assert s == s[..|s| - 1] + [last];
      if last in s[..|s| - 1] then
        assert multiset(init) <= multiset(s[..|s| - 1]);
        init
      else
        init + [last]
  }

  /** The rows of `r` appear in `s`, in the order of their first occurrences there. */
  predicate InFirstOccurrenceOrder<T(==)>(s: seq<T>, r: seq<T>) {
    && (forall i :: 0 <= i < |r| ==> r[i] in s)
    && (forall i, j :: 0 <= i < j < |r| ==> FirstIndex(s, r[i]) < FirstIndex(s, r[j]))
  }

  /** First-occurrence order inside a prefix carries over to the whole sequence, before its end. */
  lemma FirstOccurrenceOrderInPrefix<T>(s: seq<T>, n: nat, init: seq<T>)
    requires n <= |s|
    requires InFirstOccurrenceOrder(s[..n], init)
    ensures InFirstOccurrenceOrder(s, init)
    ensures forall i :: 0 <= i < |init| ==> FirstIndex(s, init[i]) < n
  {
    forall i | 0 <= i < |init|
      ensures init[i] in s && FirstIndex(s, init[i]) == FirstIndex(s[..n], init[i])
    {
      FirstIndexInPrefix(s, n, init[i]);
    }
  }

  /** The rows `DropDuplicates` keeps appear in the order of their first occurrence in the input. */
  lemma {:induction false} DropDuplicatesKeepsFirstOccurrences<T>(s: seq<T>)
    ensures InFirstOccurrenceOrder(s, DropDuplicates(s))
  {
    if |s| > 0 {
      var n := |s| - 1;
      var p := s[..n];
      var last := s[n];
      DropDuplicatesKeepsFirstOccurrences(p);
      var init := DropDuplicates(p);
      FirstOccurrenceOrderInPrefix(s, n, init);
      if last in p {
        assert DropDuplicates(s) == init;
      } else {
        assert DropDuplicates(s) == init + [last];
        AppendFirstOccurrence(s, init);
      }
    }
  }

  /** A row first occurring at the end of `s` extends a first-occurrence ordering of the rows before it. */
  lemma AppendFirstOccurrence<T>(s: seq<T>, init: seq<T>)
    requires |s| > 0 && s[|s| - 1] !in s[..|s| - 1]
    requires InFirstOccurrenceOrder(s, init)
    requires forall i :: 0 <= i < |init| ==> FirstIndex(s, init[i]) < |s| - 1
    ensures InFirstOccurrenceOrder(s, init + [s[|s| - 1]])
  {
    var r := init + [s[|s| - 1]];
    LastIsFirstOccurrence(s);
    forall i, j | 0 <= i < j < |r|
      ensures FirstIndex(s, r[i]) < FirstIndex(s, r[j])
    {
      AppendFirstOccurrencePair(s, init, i, j);
    }
    forall i | 0 <= i < |r| ensures r[i] in s {
      if i < |init| {
        assert r[i] == init[i];
      }
    }
  }

  /** One pair of positions of `AppendFirstOccurrence`. */
  lemma AppendFirstOccurrencePair<T>(s: seq<T>, init: seq<T>, i: nat, j: nat)
    requires |s| > 0 && i < j <= |init|
    requires FirstIndex(s, s[|s| - 1]) == |s| - 1
    requires init[i] in s && FirstIndex(s, init[i]) < |s| - 1
    requires j < |init| ==> init[j] in s && FirstIndex(s, init[i]) < FirstIndex(s, init[j])
    ensures FirstIndex(s, (init + [s[|s| - 1]])[i]) < FirstIndex(s, (init + [s[|s| - 1]])[j])
  {
    var r := init + [s[|s| - 1]];
    assert r[i] == init[i];
    if j < |init| {
      assert r[j] == init[j];
    }
  }

  /** A last row that does not occur before it first occurs at the end. */
  lemma LastIsFirstOccurrence<T>(s: seq<T>)
    requires |s| > 0 && s[|s| - 1] !in s[..|s| - 1]
    ensures FirstIndex(s, s[|s| - 1]) == |s| - 1
  {
    var k := FirstIndex(s, s[|s| - 1]);
    assert s[..k] <= s[..|s| - 1];
  }

  /** A table without duplicate rows is left unchanged by `DropDuplicates`. */
  lemma {:induction false} DropDuplicatesOfDistinct<T>(s: seq<T>)
    requires NoDuplicates(s)
    ensures DropDuplicates(s) == s
  {
    if |s| > 0 {
      var p := s[..|s| - 1];
      var last := s[|s| - 1];
      assert NoDuplicates(p) by {
        forall i, j | 0 <= i < j < |p| ensures p[i] != p[j] {
          assert p[i] == s[i] && p[j] == s[j];
        }
      }
      DropDuplicatesOfDistinct(p);
      assert last !in p by {
        forall i | 0 <= i < |p| ensures p[i] != last {
          assert p[i] == s[i];
        }
      }
      assert DropDuplicates(s) == DropDuplicates(p) + [last];
      assert p + [last] == s;
    }
  }

  /** The distinct values of column `key` (what `np.unique` or a `groupby(...).head(1)` counts). */
  function KeySet<T, K(==)>(rows: seq<T>, key: T -> K): (ks: set<K>)
    ensures forall i :: 0 <= i < |rows| ==> key(rows[i]) in ks
    ensures |ks| <= |rows|
  {
    if |rows| == 0 then {}
    else KeySet(rows[..|rows| - 1], key) + {key(rows[|rows| - 1])}
  }

  /** Every key in `KeySet` is the key of some row. */
  lemma {:induction false} KeySetWitness<T, K>(rows: seq<T>, key: T -> K, k: K) returns (i: nat)
    requires k in KeySet(rows, key)
    ensures i < |rows| && key(rows[i]) == k
  {
    var n := |rows| - 1;
    if key(rows[n]) == k {
      i := n;
    } else {
      i := KeySetWitness(rows[..n], key, k);
    }
  }

  /** Column `key` is a primary key of `rows`: no two rows share it. */
  predicate KeysUnique<T, K(==)>(rows: seq<T>, key: T -> K) {
    forall i, j :: 0 <= i < j < |rows| ==> key(rows[i]) != key(rows[j])
  }

  /** Counting distinct keys equals counting rows exactly when the key is unique. */
  lemma {:induction false} KeyCountIsRowCountIffUnique<T, K>(rows: seq<T>, key: T -> K)
    ensures |KeySet(rows, key)| == |rows| <==> KeysUnique(rows, key)
  {
    if |rows| > 0 {
      var n := |rows| - 1;
      var p := rows[..n];
      var x := key(rows[n]);
      KeyCountIsRowCountIffUnique(p, key);
      assert rows[..n] == p;
      assert KeySet(rows, key) == KeySet(p, key) + {x};
      if x in KeySet(p, key) {
        var i := KeySetWitness(p, key, x);
        assert key(rows[i]) == key(rows[n]);
        assert KeySet(rows, key) == KeySet(p, key);
      } else {
        assert |KeySet(rows, key)| == |KeySet(p, key)| + 1;
        if KeysUnique(p, key) {
          forall i, j | 0 <= i < j < |rows|
            ensures key(rows[i]) != key(rows[j])
          {
            if j < n {
              assert key(p[i]) != key(p[j]);
            } else {
              assert key(p[i]) in KeySet(p, key);
            }
          }
        } else {
          var i, j :| 0 <= i < j < |p| && key(p[i]) == key(p[j]);
          assert key(rows[i]) == key(rows[j]);
        }
      }
    }
  }

  /** A unique key admits each row at most once. */
  lemma {:induction false} UniqueKeysBoundMultiplicity<T, K>(rows: seq<T>, key: T -> K, x: T)
    requires KeysUnique(rows, key)
    ensures multiset(rows)[x] <= 1
  {
    if |rows| > 0 {
      var n := |rows| - 1;
      var p := rows[..n];
      assert rows == p + [rows[n]];
      assert KeysUnique(p, key);
      UniqueKeysBoundMultiplicity(p, key, x);
      if rows[n] == x {
        forall i | 0 <= i < |p|
          ensures p[i] != x
        {
          assert key(rows[i]) != key(rows[n]);
        }
      }
    }
  }

  /** Two equal rows at different positions make a multiplicity of at least two. */
  lemma RepeatedRowMultiplicity<T>(t: seq<T>, i: nat, j: nat)
    requires i < j < |t| && t[i] == t[j]
    ensures multiset(t)[t[i]] >= 2
  {
    assert t == t[..j] + [t[j]] + t[j + 1..];
    assert t[..j][i] == t[i];
    assert t[i] in multiset(t[..j]);
  }

  /** Removing rows (in any order) cannot break a primary key. */
  lemma KeysUniqueOfSubMultiset<T, K>(s: seq<T>, t: seq<T>, key: T -> K)
    requires KeysUnique(s, key)
    requires multiset(t) <= multiset(s)
    ensures KeysUnique(t, key)
  {
    forall i, j | 0 <= i < j < |t|
      ensures key(t[i]) != key(t[j])
    {
      if t[i] == t[j] {
        RepeatedRowMultiplicity(t, i, j);
        UniqueKeysBoundMultiplicity(s, key, t[i]);
      } else {
        assert t[i] in multiset(t) && t[j] in multiset(t);
        assert t[i] in s && t[j] in s;
        var p :| 0 <= p < |s| && s[p] == t[i];
        var q :| 0 <= q < |s| && s[q] == t[j];
        assert p != q;
        if p < q {
          assert key(s[p]) != key(s[q]);
        } else {
          assert key(s[q]) != key(s[p]);
        }
      }
    }
  }

  /** The failure both duplicate filters raise: only `uniqueKeys` distinct keys among `rows` rows. */
  datatype KeyViolation = KeyViolation(uniqueKeys: nat, rows: nat)

  /**
    Drop exact duplicates, then insist that `key` is a primary key of what remains.
    The check never chooses between rows that share a key: it fails instead.
   */
  function DropDuplicatesRequiringUniqueKey<T(==), K(==)>(rows: seq<T>, key: T -> K): (r: Result<seq<T>, KeyViolation>)
    ensures r.Success? <==> KeysUnique(DropDuplicates(rows), key)
    ensures r.Success? ==> r.value == DropDuplicates(rows)
    ensures r.Failure? ==>
      && r.error.rows == |DropDuplicates(rows)|
      && r.error.uniqueKeys == |KeySet(DropDuplicates(rows), key)|
      && r.error.uniqueKeys < r.error.rows
  {
    var deduped := DropDuplicates(rows);
    var numUnique := |KeySet(deduped, key)|;
    KeyCountIsRowCountIffUnique(deduped, key);
    if |deduped| != numUnique then Failure(KeyViolation(numUnique, |deduped|))
    else Success(deduped)
  }
}
