/**
 Circuit-PSI, sender side: the entries of the simple table, where each of them sits, and the features
 that belong to it (src/setops/pjc/circuit_psi.cpp).
 */
module CircuitTables {
  import opened Sequences
  import opened Hashing

  // ---- the entries in walking order ----

  function Values(walk: seq<Placed>): (r: seq<Item>)
    ensures |r| == |walk| && forall k :: 0 <= k < |r| ==> r[k] == walk[k].value
  {
    seq<Item>(|walk|, k requires 0 <= k < |walk| => walk[k].value)
  }

  /** The list from which the sender builds its hint filter. */
  function FilterInputs(table: seq<seq<Entry>>): seq<Item> {
    Values(Walk(table))
  }

  /** The place in the walk where bin `i` begins. */
  ghost function Offset(table: seq<seq<Entry>>, i: nat): nat
    requires i <= |table|
  {
    |Walk(table[..i])|
  }

  lemma WalkPrefix(table: seq<seq<Entry>>, i: nat)
    requires i < |table|
    ensures Walk(table[..i + 1]) == Walk(table[..i]) + WalkBin(i, table[i])
  {
    assert table[..i + 1][..i] == table[..i];
  }

  lemma {:induction false} WalkGrows(table: seq<seq<Entry>>, i: nat, n: nat)
    requires i <= n <= |table|
    ensures Offset(table, i) <= Offset(table, n) && Walk(table[..n])[..Offset(table, i)] == Walk(table[..i])
    decreases n
  {
    if i < n {
      WalkGrows(table, i, n - 1);
      WalkPrefix(table, n - 1);
    }
  }

  lemma WalkAt(table: seq<seq<Entry>>, i: nat, j: nat)
    requires i < |table| && j < |table[i]|
    ensures Offset(table, i) + j < |Walk(table)|
    ensures Walk(table)[Offset(table, i) + j] == Placed(i, table[i][j].value, table[i][j].fid)
  {
    WalkPrefix(table, i);
    WalkGrows(table, i + 1, |table|);
    assert table[..|table|] == table;
    var k := Offset(table, i) + j;
    assert Walk(table)[k] == Walk(table)[..Offset(table, i + 1)][k] == Walk(table[..i + 1])[k];
  }

  /** No two tagged items of the list coincide. Distinct keys meet this unless two of their hashes
      differ in nothing but the tag bits of byte 0. */
  ghost predicate NoTagClash(xs: seq<Item>, funs: nat) {
    forall p, q, f, g ::
      (0 <= p < |xs| && 0 <= q < |xs| && 0 <= f < funs && 0 <= g < funs && Tagged(xs[p], f) == Tagged(xs[q], g)) ==>
      p == q && f == g
  }

  lemma {:induction false} ExpectedDistinct(lib: HashLib, seed: Block, bins: nat, funs: nat, xs: seq<Item>)
    requires NoTagClash(xs, funs)
    ensures Distinct(Expected(lib, seed, bins, funs, xs))
  {
    if xs != [] {
      var n := |xs| - 1;
      assert NoTagClash(xs[..n], funs);
      ExpectedDistinct(lib, seed, bins, funs, xs[..n]);
      var v, w := Expected(lib, seed, bins, funs, xs[..n]), PlacedBy(lib, seed, bins, funs, xs[n]);
      forall i, f | 0 <= i < |v| && 0 <= f < |w| ensures v[i] != w[f] {
        ExpectedMember(lib, seed, bins, funs, xs[..n], v[i]);
        assert v[i] in v;
      }
    }
  }

  lemma {:induction false} DistinctCounts<T(!new)>(s: seq<T>, x: T)
    requires Distinct(s)
    ensures multiset(s)[x] <= 1
  {
    if s != [] {
      DistinctCounts(s[..|s| - 1], x);
      assert s == s[..|s| - 1] + [s[|s| - 1]];
    }
  }

  lemma DistinctReordered<T(!new)>(s: seq<T>, t: seq<T>)
    requires Distinct(s) && multiset(s) == multiset(t)
    ensures Distinct(t)
  {
    forall i, j | 0 <= i < j < |t| ensures t[i] != t[j] {
      DistinctCounts(s, t[i]);
      assert t == t[..i] + [t[i]] + t[i + 1..j] + [t[j]] + t[j + 1..];
    }
  }

  /** Without tag clashes the filter inputs are pairwise different. */
  lemma FilterInputsDistinct(lib: HashLib, seed: Block, bins: nat, funs: nat, xs: seq<Item>)
    requires SimpleOk(lib, seed, bins, funs, xs) && NoTagClash(xs, funs)
    ensures Distinct(FilterInputs(lib.simple(seed, bins, funs, xs)))
  {
    var expected := Expected(lib, seed, bins, funs, xs);
    var walk := Walk(lib.simple(seed, bins, funs, xs));
    ExpectedDistinct(lib, seed, bins, funs, xs);
    DistinctReordered(expected, walk);
    forall k, l | 0 <= k < l < |walk| ensures walk[k].value != walk[l].value {
      assert walk[k] in multiset(expected) && walk[l] in multiset(expected);
      ExpectedMember(lib, seed, bins, funs, xs, walk[k]);
      ExpectedMember(lib, seed, bins, funs, xs, walk[l]);
    }
  }

  /** Bin `i` of the table holds a tagged value exactly when some item was placed there with that tag. */
  lemma BinHolds(lib: HashLib, seed: Block, bins: nat, funs: nat, xs: seq<Item>, i: nat, value: Item)
    requires SimpleOk(lib, seed, bins, funs, xs) && i < bins
    ensures HoldsValue(lib.simple(seed, bins, funs, xs)[i], value) <==>
      exists p, f ::
        0 <= p < |xs| && 0 <= f < funs && lib.address(seed, f, xs[p], bins) == i && value == Tagged(xs[p], f)
  {
    var table := lib.simple(seed, bins, funs, xs);
    var expected := Expected(lib, seed, bins, funs, xs);
    if HoldsValue(table[i], value) {
      var j :| 0 <= j < |table[i]| && table[i][j].value == value;
      var e := Placed(i, value, table[i][j].fid);
      WalkMember(table, e);
      assert e in multiset(Walk(table)) && e in multiset(expected);
      ExpectedMember(lib, seed, bins, funs, xs, e);
    }
    if p, f :| 0 <= p < |xs| && 0 <= f < funs && lib.address(seed, f, xs[p], bins) == i && value == Tagged(xs[p], f) {
      var e := Placed(i, value, f);
      ExpectedMember(lib, seed, bins, funs, xs, e);
      assert e in multiset(expected) && e in multiset(Walk(table));
      WalkMember(table, e);
      var j :| 0 <= j < |table[i]| && table[i][j] == Entry(value, f);
    }
  }

  ghost predicate HoldsValue(row: seq<Entry>, value: Item) {
    exists j :: 0 <= j < |row| && row[j].value == value
  }

  // ---- the location map ----

  datatype Loc = Loc(bin: nat, index: nat)

  function LocateRow(m: map<Item, Loc>, i: nat, row: seq<Entry>): map<Item, Loc> {
    if row == [] then m
    else LocateRow(m, i, row[..|row| - 1])[row[|row| - 1].value := Loc(i, |row| - 1)]
  }

  function Locations(table: seq<seq<Entry>>): map<Item, Loc> {
    if table == [] then map[]
    else LocateRow(Locations(table[..|table| - 1]), |table| - 1, table[|table| - 1])
  }

  method LocateEntries(table: seq<seq<Entry>>) returns (locs: map<Item, Loc>, inputs: seq<Item>)
    ensures locs == Locations(table) && inputs == FilterInputs(table)
  {
    locs, inputs := map[], [];
    for i := 0 to |table|
      invariant locs == Locations(table[..i]) && inputs == FilterInputs(table[..i])
    {
      var row := table[i];
      WalkPrefix(table, i);
      for j := 0 to |row|
        invariant locs == LocateRow(Locations(table[..i]), i, row[..j])
        invariant inputs == Values(Walk(table[..i]) + WalkBin(i, row)[..j])
      {
        locs := locs[row[j].value := Loc(i, j)];
        inputs := inputs + [row[j].value];
        assert row[..j + 1][..j] == row[..j];
      }
      assert row[..|row|] == row && WalkBin(i, row)[..|row|] == WalkBin(i, row);
      assert table[..i + 1][..i] == table[..i];
    }
    assert table[..|table|] == table;
  }

  /** `at` is a place of the table where `value` stands. */
  ghost predicate Stands(table: seq<seq<Entry>>, at: Loc, value: Item) {
    at.bin < |table| && at.index < |table[at.bin]| && table[at.bin][at.index].value == value
  }

  lemma {:induction false} RowLocated(m: map<Item, Loc>, i: nat, row: seq<Entry>, value: Item)
    ensures var r := LocateRow(m, i, row);
      (value in r <==> value in m || HoldsValue(row, value))
      && (value in r ==>
        ((value in m && r[value] == m[value])
        || (r[value].bin == i && r[value].index < |row| && row[r[value].index].value == value)))
  {
    if row != [] {
      var n := |row| - 1;
      RowLocated(m, i, row[..n], value);
      assert HoldsValue(row, value) <==> HoldsValue(row[..n], value) || row[n].value == value by {
        if HoldsValue(row[..n], value) {
          var j :| 0 <= j < n && row[..n][j].value == value;
          assert row[j].value == value;
        }
        if j :| 0 <= j < |row| && row[j].value == value && j < n {
          assert row[..n][j].value == value;
        }
      }
    }
  }

  /** The map sends every value of the table, and no other, to a place where it stands. */
  lemma {:induction false} LocationStands(table: seq<seq<Entry>>, value: Item)
    ensures value in Locations(table) ==> Stands(table, Locations(table)[value], value)
    ensures forall i :: 0 <= i < |table| && HoldsValue(table[i], value) ==> value in Locations(table)
  {
    if table != [] {
      var n := |table| - 1;
      LocationStands(table[..n], value);
      RowLocated(Locations(table[..n]), n, table[n], value);
      forall i | 0 <= i < |table| && HoldsValue(table[i], value) ensures value in Locations(table) {
        if i < n {
          assert table[..n][i] == table[i];
        }
      }
    }
  }

  /** `at` comes before `other` in the walk. */
  ghost predicate Before(at: Loc, other: Loc) {
    at.bin < other.bin || (at.bin == other.bin && at.index < other.index)
  }

  /** A value that stands at several places is located at the last of them: later writes win. */
  lemma {:induction false} LocatedLast(table: seq<seq<Entry>>, value: Item, other: Loc)
    requires value in Locations(table) && Stands(table, other, value)
    ensures other == Locations(table)[value] || Before(other, Locations(table)[value])
  {
    var n := |table| - 1;
    RowLocated(Locations(table[..n]), n, table[n], value);
    LocationStands(table[..n], value);
    if other.bin == n {
      RowLocatedLast(Locations(table[..n]), n, table[n], value, other.index);
    } else {
      assert HoldsValue(table[..n][other.bin], value);
      LocatedLast(table[..n], value, other);
    }
  }

  lemma {:induction false} RowLocatedLast(m: map<Item, Loc>, i: nat, row: seq<Entry>, value: Item, j: nat)
    requires j < |row| && row[j].value == value
    ensures var r := LocateRow(m, i, row); value in r && r[value].bin == i && j <= r[value].index < |row|
  {
    var n := |row| - 1;
    if row[n].value != value {
      RowLocatedLast(m, i, row[..n], value, j);
    }
  }

  /** When the filter inputs differ pairwise, the map is a bijection between the tagged entries and
      the places of the table. */
  lemma LocationsBijective(table: seq<seq<Entry>>, at: Loc)
    requires Distinct(FilterInputs(table)) && at.bin < |table| && at.index < |table[at.bin]|
    ensures var value := table[at.bin][at.index].value; value in Locations(table) && Locations(table)[value] == at
  {
    var value := table[at.bin][at.index].value;
    assert HoldsValue(table[at.bin], value);
    LocationStands(table, value);
    PlaceUnique(table, Locations(table)[value], at, value);
  }

  lemma PlaceUnique(table: seq<seq<Entry>>, a: Loc, b: Loc, value: Item)
    requires Distinct(FilterInputs(table)) && Stands(table, a, value) && Stands(table, b, value)
    ensures a == b
  {
    WalkAt(table, a.bin, a.index);
    WalkAt(table, b.bin, b.index);
    assert Offset(table, a.bin) + a.index == Offset(table, b.bin) + b.index;
    PlacesApart(table, a, b);
    PlacesApart(table, b, a);
  }

  lemma PlacesApart(table: seq<seq<Entry>>, a: Loc, b: Loc)
    requires a.bin < |table| && b.bin < |table| && a.index < |table[a.bin]|
    ensures a.bin < b.bin ==> Offset(table, a.bin) + a.index < Offset(table, b.bin) + b.index
  {
    if a.bin < b.bin {
      WalkPrefix(table, a.bin);
      WalkGrows(table, a.bin + 1, b.bin);
    }
  }
}
