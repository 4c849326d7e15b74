/** `WarehousePicking.optimize`: arrange a request's SKUs in the order a
    picker walks the floor. The traversal table is a parameter: `table` is
    its SKU column (the fifth comma-separated field of each line), in file
    order. */
module WarehousePicking {

  /** `n` copies of `x`. */
  function Repeat(x: string, n: nat): (r: seq<string>)
    ensures |r| == n
    ensures forall i :: 0 <= i < |r| ==> r[i] == x
  {
    if n == 0 then [] else [x] + Repeat(x, n - 1)
  }

  /** For each table row in file order, as many copies of the row's SKU as
      `skus` holds (`skuAmount`), if `skus` holds it at all. */
  function Optimize(skus: seq<string>, table: seq<string>): (r: seq<string>)
    ensures forall i :: 0 <= i < |r| ==> r[i] in skus && r[i] in table
    decreases |table|
  {
    if |table| == 0 then []
    else
      var sku := table[0];
      (if sku in skus then Repeat(sku, multiset(skus)[sku]) else [])
      + Optimize(skus, table[1..])
  }

  /** No SKU occupies two rows of the table. */
  predicate Unique(table: seq<string>)
  {
    forall i, j :: 0 <= i < j < |table| ==> table[i] != table[j]
  }

  /** Position of the first table row holding `x`. */
  function Rank(table: seq<string>, x: string): (k: nat)
    requires x in table
    ensures k < |table| && table[k] == x
  {
    if table[0] == x then 0 else 1 + Rank(table[1..], x)
  }

  /** The SKUs of `skus` that the table lists, in input order. */
  function InTable(skus: seq<string>, table: seq<string>): (r: seq<string>)
    ensures |r| <= |skus|
  {
    if |skus| == 0 then []
    else (if skus[0] in table then [skus[0]] else []) + InTable(skus[1..], table)
  }

  lemma RepeatCount(x: string, n: nat, y: string)
    ensures multiset(Repeat(x, n))[y] == if y == x then n else 0
  {
  }

  /** One table row's contribution to the output. */
  lemma OptimizeHead(skus: seq<string>, table: seq<string>, x: string)
    requires |table| > 0
    ensures multiset(Optimize(skus, table))[x] ==
      (if table[0] == x then multiset(skus)[x] else 0) + multiset(Optimize(skus, table[1..]))[x]
  {
    var sku := table[0];
    var head := if sku in skus then Repeat(sku, multiset(skus)[sku]) else [];
    RepeatCount(sku, multiset(skus)[sku], x);
    assert Optimize(skus, table) == head + Optimize(skus, table[1..]);
  }

  lemma TableHead(table: seq<string>, x: string)
    requires |table| > 0
    ensures multiset(table)[x] == (if table[0] == x then 1 else 0) + multiset(table[1..])[x]
  {
    assert table == [table[0]] + table[1..];
  }

  /** Duplicates are kept by count: a SKU appears in the output as often
      as in the input, times the number of table rows that hold it. */
  lemma {:induction false} OptimizeCount(skus: seq<string>, table: seq<string>, x: string)
    ensures multiset(Optimize(skus, table))[x] == multiset(skus)[x] * multiset(table)[x]
    decreases |table|
  {
    if |table| > 0 {
      var cx := multiset(skus)[x];
      var t := multiset(table[1..])[x];
      OptimizeCount(skus, table[1..], x);
      OptimizeHead(skus, table, x);
      TableHead(table, x);
      if table[0] == x {
        MulDistrib(cx, 1, t);
      }
    }
  }

  lemma MulDistrib(a: int, b: int, c: int)
    ensures a * (b + c) == a * b + a * c
  {
  }

  lemma {:induction false} InTableCount(skus: seq<string>, table: seq<string>, x: string)
    ensures multiset(InTable(skus, table))[x] == if x in table then multiset(skus)[x] else 0
    decreases |skus|
  {
    if |skus| > 0 {
      InTableCount(skus[1..], table, x);
      assert skus == [skus[0]] + skus[1..];
    }
  }

  lemma UniqueCount(table: seq<string>, x: string)
    requires Unique(table)
    ensures multiset(table)[x] == if x in table then 1 else 0
    decreases |table|
  {
    if |table| > 0 {
      assert table == [table[0]] + table[1..];
      UniqueCount(table[1..], x);
    }
  }

  /** With a table of distinct rows, the output is a permutation of the
      input SKUs the table lists: nothing is invented, duplicated or lost
      except the SKUs the table does not know. */
  lemma OptimizeIsPermutationOfKnown(skus: seq<string>, table: seq<string>)
    requires Unique(table)
    ensures multiset(Optimize(skus, table)) == multiset(InTable(skus, table))
  {
    forall x
      ensures multiset(Optimize(skus, table))[x] == multiset(InTable(skus, table))[x]
    {
      OptimizeCount(skus, table, x);
      InTableCount(skus, table, x);
      UniqueCount(table, x);
    }
  }

  lemma {:induction false} InTableFull(skus: seq<string>, table: seq<string>)
    ensures |InTable(skus, table)| == |skus| <==> forall i :: 0 <= i < |skus| ==> skus[i] in table
    decreases |skus|
  {
    if |skus| > 0 {
      InTableFull(skus[1..], table);
      assert forall i :: 1 <= i < |skus| ==> skus[i] == skus[1..][i - 1];
    }
  }

  /** The output is never longer than the input, and it is exactly as long
      precisely when the table lists every input SKU. */
  lemma OptimizeLength(skus: seq<string>, table: seq<string>)
    requires Unique(table)
    ensures |Optimize(skus, table)| <= |skus|
    ensures |Optimize(skus, table)| == |skus| <==> forall i :: 0 <= i < |skus| ==> skus[i] in table
  {
    OptimizeIsPermutationOfKnown(skus, table);
    assert |multiset(Optimize(skus, table))| == |Optimize(skus, table)|;
    assert |multiset(InTable(skus, table))| == |InTable(skus, table)|;
    InTableFull(skus, table);
  }

  /** The output follows table order: a SKU never comes after one that
      sits further along the traversal. */
  lemma {:induction false} OptimizeOrdered(skus: seq<string>, table: seq<string>)
    requires Unique(table)
    ensures forall i, j :: 0 <= i < j < |Optimize(skus, table)| ==>
      Rank(table, Optimize(skus, table)[i]) <= Rank(table, Optimize(skus, table)[j])
    decreases |table|
  {
    if |table| > 0 {
      var sku := table[0];
      var head := if sku in skus then Repeat(sku, multiset(skus)[sku]) else [];
      var tail := Optimize(skus, table[1..]);
      var r := Optimize(skus, table);
      assert r == head + tail;
      assert Unique(table[1..]);
      OptimizeOrdered(skus, table[1..]);
      forall k | 0 <= k < |tail|
        ensures Rank(table, tail[k]) == 1 + Rank(table[1..], tail[k])
      {
        var m := Rank(table[1..], tail[k]);
        assert table[m + 1] == tail[k];
      }
      forall i, j | 0 <= i < j < |r|
        ensures Rank(table, r[i]) <= Rank(table, r[j])
      {
        if j >= |head| && i >= |head| {
          assert r[i] == tail[i - |head|] && r[j] == tail[j - |head|];
        } else if i < |head| {
          assert r[i] == sku;
        }
      }
    }
  }

  /** All copies of one SKU sit together in the output. */
  lemma OptimizeContiguous(skus: seq<string>, table: seq<string>)
    requires Unique(table)
    ensures forall i, j, k ::
      (0 <= i < j < k < |Optimize(skus, table)| &&
       Optimize(skus, table)[i] == Optimize(skus, table)[k]) ==>
        Optimize(skus, table)[j] == Optimize(skus, table)[i]
  {
    var r := Optimize(skus, table);
    OptimizeOrdered(skus, table);
    forall i, j, k | 0 <= i < j < k < |r| && r[i] == r[k]
      ensures r[j] == r[i]
    {
      assert Rank(table, r[i]) <= Rank(table, r[j]) <= Rank(table, r[k]);
      assert table[Rank(table, r[j])] == r[j];
    }
  }

  /** The three cases of the optimizer's unit test, on a table whose rows
      hold SKUs 1, 5 and 9 in that order. */
  lemma OptimizeOrdersByTable()
    ensures Optimize(["5", "9", "1"], ["1", "5", "9"]) == ["1", "5", "9"]
  {
    var s := ["5", "9", "1"];
    assert multiset(s)["1"] == 1 && multiset(s)["5"] == 1 && multiset(s)["9"] == 1;
    assert ["1", "5", "9"][1..] == ["5", "9"] && ["5", "9"][1..] == ["9"];
    assert Optimize(s, ["9"]) == ["9"];
    assert Optimize(s, ["5", "9"]) == ["5", "9"];
  }

  lemma OptimizeKeepsDuplicates()
    ensures Optimize(["5", "5", "1"], ["1", "5", "9"]) == ["1", "5", "5"]
  {
    var s := ["5", "5", "1"];
    assert multiset(s)["1"] == 1 && multiset(s)["5"] == 2;
    assert "9" !in s;
    assert ["1", "5", "9"][1..] == ["5", "9"] && ["5", "9"][1..] == ["9"];
    assert Optimize(s, ["9"]) == [];
    assert Repeat("5", 2) == ["5", "5"];
    assert Optimize(s, ["5", "9"]) == ["5", "5"];
  }

  lemma OptimizeDropsUnknown()
    ensures Optimize(["ABC"], ["1", "5", "9"]) == []
  {
    assert ["1", "5", "9"][1..] == ["5", "9"] && ["5", "9"][1..] == ["9"];
  }
}
