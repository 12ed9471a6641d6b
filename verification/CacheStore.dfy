/** The storage as the layers above the buffer cache see it (bio.c, memide.c). */
module CacheStore {
  import opened Blocks

  /** The disk, the disk as bread shows it, the pinned blocks, and the disk after every
      block write so far. */
  datatype Store = Store(disk: Image, view: Image, pinned: set<nat>, trace: seq<Image>)

  /** Blocks that are not pinned look as they do on disk. */
  ghost predicate Sane(st: Store) {
    |st.view| == |st.disk| && (forall bn :: bn in st.pinned ==> bn < |st.disk|) &&
    forall bn: nat :: bn < |st.disk| && bn !in st.pinned ==> st.view[bn] == st.disk[bn]
  }

  /** Write data through to block bn. */
  ghost function Written(st: Store, bn: nat, data: Block): (z: Store)
    requires bn < |st.disk| == |st.view|
    ensures |z.disk| == |st.disk| == |z.view|
  {
    var d := st.disk[bn := data];
    Store(d, st.view[bn := data], st.pinned - {bn}, st.trace + [d])
  }

  lemma SaneWritten(st: Store, bn: nat, data: Block)
    requires Sane(st) && bn < |st.disk|
    ensures Sane(Written(st, bn, data))
  {
  }
}
