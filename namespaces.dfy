/** The collection-level operations the service uses on the tenant
    collections: an `insert_one` that creates a collection on first write,
    `rename`, `drop` and `list_collection_names`. A collection is
    represented by its name and its number of documents. */
module Namespaces {
  import opened Wrappers

  type Namespaces = map<string, nat>

  /** Why MongoDB refuses a rename. */
  datatype RenameError = SourceMissing | TargetExists

  /** `db[c].insert_one(doc)`: the collection exists afterwards (it is created
      lazily when absent) and holds one more document; no other collection
      changes. */
  function InsertDoc(ns: Namespaces, c: string): (ns': Namespaces)
    ensures ns'.Keys == ns.Keys + {c}
    ensures ns'[c] == (if c in ns then ns[c] else 0) + 1
    ensures forall d :: d in ns && d != c ==> ns'[d] == ns[d]
  {
    ns[c := (if c in ns then ns[c] else 0) + 1]
  }

  /** `db[c].drop()`: the collection is gone afterwards, whether or not it
      existed; no other collection changes. */
  function Drop(ns: Namespaces, c: string): (ns': Namespaces)
    ensures ns'.Keys == ns.Keys - {c}
    ensures forall d :: d in ns' ==> ns'[d] == ns[d]
  {
    ns - {c}
  }

  /** `db[from].rename(to)`: refused when `from` does not exist or `to`
      already does; otherwise the documents of `from` are found under `to`
      and no other collection changes. */
  function Rename(ns: Namespaces, from: string, to: string): (r: Result<Namespaces, RenameError>)
    ensures from !in ns ==> r == Err(SourceMissing)
    ensures from in ns && to in ns ==> r == Err(TargetExists)
    ensures from in ns && to !in ns ==>
      && r.Ok?
      && r.value.Keys == ns.Keys - {from} + {to}
      && r.value[to] == ns[from]
      && forall d :: d in ns && d != from ==> r.value[d] == ns[d]
  {
    if from !in ns then Err(SourceMissing)
    else if to in ns then Err(TargetExists)
    else Ok((ns - {from})[to := ns[from]])
  }

  /** Dropping twice is the same as dropping once (the retry path of delete). */
  lemma DropIdempotent(ns: Namespaces, c: string)
    ensures Drop(Drop(ns, c), c) == Drop(ns, c)
  {
    assert Drop(Drop(ns, c), c).Keys == Drop(ns, c).Keys;
  }

  /** A rename that succeeds can be undone by renaming back. */
  lemma RenameBack(ns: Namespaces, from: string, to: string)
    requires Rename(ns, from, to).Ok?
    ensures Rename(Rename(ns, from, to).value, to, from) == Ok(ns)
  {
    var ns' := Rename(ns, from, to).value;
    assert from != to && from !in ns' && to in ns';
    var back := Rename(ns', to, from).value;
    assert back.Keys == ns.Keys;
    assert forall d :: d in ns ==> back[d] == ns[d];
    assert back == ns;
  }
}
