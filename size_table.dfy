/** The model-size lookup that ModelList, SystemStatus and CompactSystemStatus
    each carry a copy of: an ordered table of (key, size) pairs searched for
    the first key that occurs in the model's base name. Sizes are exact
    thousandths of a GB (0.274 GB is 274). */
module SizeTable {
  import opened Text

  /** (key, size in thousandths of a GB), in declaration order. */
  type Table = seq<(string, nat)>

  /** Entry `i` is the first entry whose key occurs in `base`. */
  predicate FirstHit(table: Table, base: string, i: nat) {
    i < |table|
    && Contains(base, table[i].0)
    && forall j | 0 <= j < i :: !Contains(base, table[j].0)
  }

  /** The size the lookup settles on for a base name: that of the first
      entry whose key occurs in it, or 0 when no key does. */
  function FirstMatch(table: Table, base: string): (size: nat)
    ensures (forall j | 0 <= j < |table| :: !Contains(base, table[j].0)) ==> size == 0
    ensures forall i: nat | FirstHit(table, base, i) :: size == table[i].1
    ensures size != 0 ==> exists i: nat | i < |table| :: FirstHit(table, base, i) && table[i].1 == size
  {
    if table == [] then 0
    else if Contains(base, table[0].0) then
      assert FirstHit(table, base, 0);
      table[0].1
    else
      var size := FirstMatch(table[1..], base);
      assert forall i: nat | 1 <= i <= |table| :: FirstHit(table, base, i) == FirstHit(table[1..], base, i - 1);
      if size != 0 then
        var k: nat :| k < |table[1..]| && FirstHit(table[1..], base, k) && table[1..][k].1 == size;
        assert FirstHit(table, base, k + 1);
        size
      else
        size
  }

  /** The lookup never exceeds the table's largest size. */
  lemma FirstMatchBounded(table: Table, base: string, k: nat)
    requires forall i | 0 <= i < |table| :: table[i].1 <= k
    ensures FirstMatch(table, base) <= k
  {
    var size := FirstMatch(table, base);
    if size != 0 {
      var i: nat :| i < |table| && FirstHit(table, base, i) && table[i].1 == size;
    }
  }

  /** An entry whose key contains an earlier entry's key is never the first hit. */
  lemma Shadowed(table: Table, base: string, j: nat, i: nat)
    requires j < i < |table| && Contains(table[i].0, table[j].0)
    ensures !FirstHit(table, base, i)
  {
    if FirstHit(table, base, i) {
      ContainsTransitive(base, table[i].0, table[j].0);
    }
  }

  /** `getModelSize`: the loop over the table's entries with an early return. */
  method LookupSize(table: Table, modelName: string) returns (size: nat)
    ensures size == FirstMatch(table, BaseName(modelName))
  {
    var base := BaseName(modelName);
    for k := 0 to |table|
      invariant FirstMatch(table[k..], base) == FirstMatch(table, base)
    {
      assert table[k..][1..] == table[k + 1..];
      if Contains(base, table[k].0) {
        return table[k].1;
      }
    }
    return 0;
  }
}
