/** `ORDER BY <column> DESC` over the rows of a remote table. Timestamps and
    dates are ISO-8601 strings of one fixed layout, whose lexicographic
    order is their chronological order. */
module Ordering {

  /** Lexicographic a <= b. */
  predicate LexLeq(a: string, b: string)
    decreases |a|
  {
    a == [] || (b != [] && (a[0] < b[0] || (a[0] == b[0] && LexLeq(a[1..], b[1..]))))
  }

  lemma {:induction false} LexLeqTotal(a: string, b: string)
    ensures LexLeq(a, b) || LexLeq(b, a)
    decreases |a|
  {
    if a != [] && b != [] && a[0] == b[0] {
      LexLeqTotal(a[1..], b[1..]);
    }
  }

  lemma {:induction false} LexLeqTransitive(a: string, b: string, c: string)
    requires LexLeq(a, b) && LexLeq(b, c)
    ensures LexLeq(a, c)
    decreases |a|
  {
    if a != [] && b != [] && c != [] && a[0] == b[0] && b[0] == c[0] {
      LexLeqTransitive(a[1..], b[1..], c[1..]);
    }
  }

  lemma {:induction false} LexLeqAntisymmetric(a: string, b: string)
    requires LexLeq(a, b) && LexLeq(b, a)
    ensures a == b
    decreases |a|
  {
    if a != [] {
      LexLeqAntisymmetric(a[1..], b[1..]);
      assert a == [a[0]] + a[1..] && b == [b[0]] + b[1..];
    }
  }

  /** rows are in descending order of key: a later row never has a larger
      key than an earlier one. */
  ghost predicate SortedDesc<R>(rows: seq<R>, key: R -> string)
  {
    forall i, j :: 0 <= i < j < |rows| ==> LexLeq(key(rows[j]), key(rows[i]))
  }

  /** No two different rows of rows share a key. */
  ghost predicate KeysDiffer<R>(rows: seq<R>, key: R -> string)
  {
    forall i, j :: 0 <= i < |rows| && 0 <= j < |rows| && key(rows[i]) == key(rows[j]) ==> rows[i] == rows[j]
  }

  /** Two descending orderings of the same rows start with the same row
      when no two different rows share a key. */
  lemma SortedDescHeads<R>(s: seq<R>, t: seq<R>, key: R -> string)
    requires s != [] && t != []
    requires SortedDesc(s, key) && SortedDesc(t, key)
    requires multiset(s) == multiset(t)
    requires KeysDiffer(s, key)
    ensures s[0] == t[0]
  {
    assert s[0] in multiset(t) && t[0] in multiset(s);
    var k :| 0 <= k < |t| && t[k] == s[0];
    var m :| 0 <= m < |s| && s[m] == t[0];
    if k > 0 && m > 0 {
      assert LexLeq(key(t[k]), key(t[0]));
      assert LexLeq(key(s[m]), key(s[0]));
      LexLeqAntisymmetric(key(s[0]), key(t[0]));
      assert key(s[m]) == key(s[0]);
    }
  }

  /** The rest of a descending ordering, with the multiset it holds. */
  lemma SortedDescTail<R>(s: seq<R>, key: R -> string)
    requires s != [] && SortedDesc(s, key) && KeysDiffer(s, key)
    ensures SortedDesc(s[1..], key) && KeysDiffer(s[1..], key)
    ensures multiset(s) == multiset{s[0]} + multiset(s[1..])
  {
    assert s == [s[0]] + s[1..];
  }

  /** Two descending orderings of the same rows are the same list when no
      two different rows share a key. */
  lemma {:induction false} SortedDescUnique<R>(s: seq<R>, t: seq<R>, key: R -> string)
    requires SortedDesc(s, key) && SortedDesc(t, key)
    requires multiset(s) == multiset(t)
    requires KeysDiffer(s, key)
    ensures s == t
    decreases |s|
  {
    assert |s| == |multiset(s)| == |t|;
    if s != [] {
      SortedDescHeads(s, t, key);
      SortedDescTail(s, key);
      assert multiset(t) == multiset{t[0]} + multiset(t[1..]) by {
        assert t == [t[0]] + t[1..];
      }
      assert multiset(s[1..]) == multiset(t[1..]) by {
        forall x ensures multiset(s[1..])[x] == multiset(t[1..])[x] {
          assert multiset(s)[x] == multiset(t)[x];
        }
      }
      assert SortedDesc(t[1..], key);
      SortedDescUnique(s[1..], t[1..], key);
      assert s == [s[0]] + s[1..] && t == [t[0]] + t[1..];
    }
  }

  /** Places x into descending rows after every row whose key is larger. */
  function InsertDesc<R>(x: R, rows: seq<R>, key: R -> string): (r: seq<R>)
    requires SortedDesc(rows, key)
    ensures SortedDesc(r, key)
    ensures multiset(r) == multiset(rows) + multiset{x}
    ensures |r| == |rows| + 1
  {
    if rows == [] then [x]
    else if LexLeq(key(rows[0]), key(x)) then
      assert forall j :: 0 < j < |rows| + 1 ==> LexLeq(key(([x] + rows)[j]), key(x)) by {
        forall j | 0 < j < |rows| + 1
          ensures LexLeq(key(([x] + rows)[j]), key(x))
        {
          if j > 1 { LexLeqTransitive(key(rows[j - 1]), key(rows[0]), key(x)); }
        }
      }
      [x] + rows
    else
      LexLeqTotal(key(rows[0]), key(x));
      var tail := InsertDesc(x, rows[1..], key);
      assert multiset(rows) == multiset{rows[0]} + multiset(rows[1..]) by {
        assert rows == [rows[0]] + rows[1..];
      }
      assert forall j :: 0 <= j < |tail| ==> LexLeq(key(tail[j]), key(rows[0])) by {
        forall j | 0 <= j < |tail|
          ensures LexLeq(key(tail[j]), key(rows[0]))
        {
          assert tail[j] in multiset(tail);
          assert tail[j] == x || tail[j] in rows[1..];
        }
      }
      [rows[0]] + tail
  }

  /** rows is the whole table in descending key order: each row comes
      from the table, and each row of the table is there. */
  ghost predicate Selects<R>(rows: seq<R>, table: map<string, R>, key: R -> string)
  {
    && SortedDesc(rows, key)
    && |rows| == |table|
    && (forall i :: 0 <= i < |rows| ==> rows[i] in table.Values)
    && (forall id :: id in table ==> table[id] in rows)
  }

  /** `select * from table order by key desc`: every row of the table once,
      in descending key order; rows with equal keys come in an unspecified
      order, as the query leaves them. */
  method SelectDesc<R(==)>(table: map<string, R>, key: R -> string) returns (rows: seq<R>)
    ensures SortedDesc(rows, key)
    ensures |rows| == |table|
    ensures forall i :: 0 <= i < |rows| ==> rows[i] in table.Values
    ensures forall id :: id in table ==> table[id] in rows
  {
    rows := [];
    var left := table.Keys;
    while left != {}
      invariant left <= table.Keys
      invariant SortedDesc(rows, key)
      invariant |rows| + |left| == |table|
      invariant forall i :: 0 <= i < |rows| ==> rows[i] in table.Values
      invariant forall id :: id in table && id !in left ==> table[id] in rows
    {
      var id :| id in left;
      var before := rows;
      rows := InsertDesc(table[id], rows, key);
      assert forall r :: r in before ==> r in rows by {
        forall r | r in before ensures r in rows {
          assert r in multiset(before);
          assert r in multiset(rows);
        }
      }
      assert forall i :: 0 <= i < |rows| ==> rows[i] == table[id] || rows[i] in before by {
        forall i | 0 <= i < |rows| ensures rows[i] == table[id] || rows[i] in before {
          assert rows[i] in multiset(rows);
        }
      }
      assert table[id] in multiset(rows);
      left := left - {id};
    }
  }
}
