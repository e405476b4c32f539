/** The append-only data bin (jmge/src/dod.rs).

    A `DataBin` shares one `DataStore` with the handles it hands out: the
    stored values, and for each value a (weak) reference to the handle that
    names it. A handle is the store and an index into its values. The weak
    references are modelled as plain references: nothing in the modelled
    code ever asks whether a handle is still held. */
module Dod {

  class DataStore<T> {
    var data: seq<T>
    var handles: seq<DataBinHandle<T>>

    constructor ()
      ensures data == [] && handles == []
    {
      data := [];
      handles := [];
    }
  }

  class DataBinHandle<T> {
    const store: DataStore<T>
    const index: nat

    constructor (store: DataStore<T>, index: nat)
      ensures this.store == store && this.index == index
    {
      this.store := store;
      this.index := index;
    }
  }

  class DataBin<T> {
    const store: DataStore<T>

    /** One handle per value, in order: handle i names value i of this
        bin's store. */
    ghost predicate Valid()
      reads this, store
    {
      && |store.data| == |store.handles|
      && forall i | 0 <= i < |store.handles| :: store.handles[i].store == store && store.handles[i].index == i
    }

    /** `DataBin::new`: an empty store. */
    constructor ()
      ensures fresh(store) && store.data == [] && store.handles == [] && Valid()
    {
      store := new DataStore();
    }

    /** `insert`: the value goes at the end of the store and the handle
        returned names it; the values before it are untouched. */
    method Insert(val: T) returns (h: DataBinHandle<T>)
      requires Valid()
      modifies store
      ensures Valid()
      ensures store.data == old(store.data) + [val]
      ensures store.handles == old(store.handles) + [h]
      ensures fresh(h) && h.store == store && h.index == |store.data| - 1
      ensures store.data[h.index] == val
    {
      store.data := store.data + [val];
      h := new DataBinHandle(store, |store.data| - 1);
      store.handles := store.handles + [h];
    }
  }

  /** Successive inserts into a new bin hand out indices 0, 1, 2, and each
      handle names the value inserted with it. */
  method InsertThree<T>(a: T, b: T, c: T) returns (i: nat, j: nat, k: nat, values: seq<T>)
    ensures i == 0 && j == 1 && k == 2
    ensures values == [a, b, c] && values[i] == a && values[j] == b && values[k] == c
  {
    var bin := new DataBin<T>();
    var ha := bin.Insert(a);
    var hb := bin.Insert(b);
    var hc := bin.Insert(c);
    i, j, k := ha.index, hb.index, hc.index;
    values := bin.store.data;
  }
}
