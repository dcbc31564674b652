/** The product table as a value: how records are found, which identifier a
    new record gets, and the table that each write operation leaves behind,
    with the properties the handlers promise about them. */
module Table {
  import opened Products
  import opened Filtering

  /** No two records of the table share an id. */
  predicate UniqueIds(s: seq<Product>) {
    forall i, j :: 0 <= i < j < |s| ==> s[i].id != s[j].id
  }

  /** Two tables of the same length with the same id at every position. */
  predicate SameIds(s: seq<Product>, t: seq<Product>) {
    |s| == |t| && forall i :: 0 <= i < |s| ==> s[i].id == t[i].id
  }

  /** Position of the first record whose id is `id`, if any: the linear scan
      shared by the lookup, replace, partial-update and delete handlers. */
  function IndexOf(s: seq<Product>, id: int): (r: Option<nat>)
    ensures r.Some? ==> r.value < |s| && s[r.value].id == id
    ensures r.Some? ==> forall j :: 0 <= j < r.value ==> s[j].id != id
    ensures r.None? <==> forall j :: 0 <= j < |s| ==> s[j].id != id
    decreases |s|
  {
    if s == [] then None
    else if s[0].id == id then Some(0)
    else match IndexOf(s[1..], id)
      case None => None
      case Some(k) => Some(k + 1)
  }

  /** The lookup handler: the first record with the id, or not-found. */
  function Find(s: seq<Product>, id: int): (r: Lookup)
    ensures r.Found? ==> r.product in s && r.product.id == id
    ensures r.Found? ==> exists i :: 0 <= i < |s| && s[i] == r.product &&
                                     forall j :: 0 <= j < i ==> s[j].id != id
    ensures r.NotFound? <==> forall p :: p in s ==> p.id != id
  {
    match IndexOf(s, id)
    case Some(i) => Found(s[i])
    case None => NotFound
  }

  /** The first match found by the scan is determined by the ids alone. */
  lemma {:induction false} IndexOfSameIds(s: seq<Product>, t: seq<Product>, id: int)
    requires SameIds(s, t)
    ensures IndexOf(s, id) == IndexOf(t, id)
    decreases |s|
  {
    if s != [] && s[0].id != id {
      IndexOfSameIds(s[1..], t[1..], id);
    }
  }

  /** Largest id in a non-empty table. */
  function MaxId(s: seq<Product>): (m: int)
    requires |s| > 0
    ensures forall i :: 0 <= i < |s| ==> s[i].id <= m
    ensures exists i :: 0 <= i < |s| && s[i].id == m
    decreases |s|
  {
    if |s| == 1 then s[0].id
    else
      var m := MaxId(s[..|s| - 1]);
      if s[|s| - 1].id > m then s[|s| - 1].id else m
  }

  /** The id the create handler assigns: one more than the largest id, or 1
      for an empty table. */
  function NextId(s: seq<Product>): (n: int)
    ensures forall i :: 0 <= i < |s| ==> s[i].id < n
    ensures s == [] ==> n == 1
  {
    if s == [] then 1 else MaxId(s) + 1
  }

  /** The table after creating a record from `input`. */
  function Appended(s: seq<Product>, input: ProductInput): (r: seq<Product>)
    ensures |r| == |s| + 1 && r[..|s|] == s
    ensures forall p :: p in s ==> p.id != r[|s|].id
  {
    assert (s + [WithId(input, NextId(s))])[..|s|] == s;
    s + [WithId(input, NextId(s))]
  }

  /** The table after applying `f` to the first record with the id; the
      table itself when there is none. */
  function UpdateFirst(s: seq<Product>, id: int, f: Product -> Product): seq<Product> {
    match IndexOf(s, id)
    case None => s
    case Some(i) => s[i := f(s[i])]
  }

  /** The table after a full replace (PUT) of the record with the id. */
  function Replaced(s: seq<Product>, id: int, input: ProductInput): (r: seq<Product>)
    ensures SameIds(r, s)
    ensures IndexOf(s, id).None? ==> r == s
  {
    UpdateFirst(s, id, (p: Product) => WithId(input, p.id))
  }

  /** The table after a partial update (PATCH) of the record with the id. */
  function Patched(s: seq<Product>, id: int, patch: PartialProduct): (r: seq<Product>)
    ensures SameIds(r, s)
    ensures IndexOf(s, id).None? ==> r == s
  {
    UpdateFirst(s, id, (p: Product) => ApplyPatch(p, patch))
  }

  /** The table after deleting the record with the id. */
  function Removed(s: seq<Product>, id: int): (r: seq<Product>)
    ensures SubsequenceOf(r, s)
    ensures |r| == if IndexOf(s, id).Some? then |s| - 1 else |s|
  {
    match IndexOf(s, id)
    case None => SubsequenceReflexive(s); s
    case Some(i) => DropOneIsSubsequence(s, i); s[..i] + s[i + 1..]
  }

  // ---------------------------------------------------------------- create

  /** Create grows the table by one record at the end, keeps the earlier
      records, and gives the new record a fresh id. */
  lemma AppendedSpec(s: seq<Product>, input: ProductInput)
    ensures |Appended(s, input)| == |s| + 1
    ensures Appended(s, input)[..|s|] == s
    ensures Appended(s, input)[|s|] == WithId(input, NextId(s))
    ensures forall p :: p in s ==> p.id != Appended(s, input)[|s|].id
  {
    assert (s + [WithId(input, NextId(s))])[..|s|] == s;
  }

  lemma AppendedKeepsUnique(s: seq<Product>, input: ProductInput)
    requires UniqueIds(s)
    ensures UniqueIds(Appended(s, input))
  {
  }

  /** Deleting the record that was just created restores the table, so the
      next create hands out the same id again. */
  lemma {:induction false} CreateThenDelete(s: seq<Product>, input: ProductInput)
    ensures Removed(Appended(s, input), NextId(s)) == s
    ensures NextId(Removed(Appended(s, input), NextId(s))) == NextId(s)
  {
    var t := Appended(s, input);
    var i := IndexOf(t, NextId(s));
    assert t[|s|].id == NextId(s);
    assert i == Some(|s|);
    assert t[..|s|] + t[|s| + 1..] == s;
  }

  /** An id freed by deleting the record with the largest id is not skipped:
      the next create gets an id no larger than the freed one. */
  lemma DeletedMaxIdReusable(s: seq<Product>)
    requires UniqueIds(s) && |s| > 0 && MaxId(s) >= 1
    ensures NextId(Removed(s, MaxId(s))) <= MaxId(s)
  {
    var m := MaxId(s);
    var i := IndexOf(s, m).value;
    var r := s[..i] + s[i + 1..];
    assert Removed(s, m) == r;
    if r != [] {
      var k :| 0 <= k < |r| && r[k].id == MaxId(r);
      RemovedAt(s, i, k);
      var j := if k < i then k else k + 1;
      assert r[k] == s[j] && j != i;
      assert s[j].id != s[i].id;
    }
  }

  // ------------------------------------------------------- replace / patch

  lemma UpdateFirstKeepsIds(s: seq<Product>, id: int, f: Product -> Product)
    requires forall p :: f(p).id == p.id
    ensures SameIds(UpdateFirst(s, id, f), s)
  {
  }

  /** After an update the lookup finds the updated record at the same place. */
  lemma FindAfterUpdate(s: seq<Product>, id: int, f: Product -> Product)
    requires forall p :: f(p).id == p.id
    ensures IndexOf(UpdateFirst(s, id, f), id) == IndexOf(s, id)
    ensures Find(UpdateFirst(s, id, f), id) ==
            match Find(s, id)
            case Found(p) => Found(f(p))
            case NotFound => NotFound
  {
    UpdateFirstKeepsIds(s, id, f);
    IndexOfSameIds(UpdateFirst(s, id, f), s, id);
  }

  /** A full replace on a present id overwrites the four data fields of the
      first record with that id and keeps its id; every other record and the
      length are unchanged. On an absent id the table is unchanged. */
  lemma ReplacedSpec(s: seq<Product>, id: int, input: ProductInput)
    ensures |Replaced(s, id, input)| == |s|
    ensures IndexOf(s, id).None? ==> Replaced(s, id, input) == s
    ensures IndexOf(s, id).Some? ==>
      var i := IndexOf(s, id).value;
      Replaced(s, id, input)[i] == WithId(input, id) &&
      forall j :: 0 <= j < |s| && j != i ==> Replaced(s, id, input)[j] == s[j]
  {
  }

  lemma ReplacedKeepsUnique(s: seq<Product>, id: int, input: ProductInput)
    requires UniqueIds(s)
    ensures UniqueIds(Replaced(s, id, input))
  {
    UpdateFirstKeepsIds(s, id, (p: Product) => WithId(input, p.id));
  }

  /** A partial update on a present id changes only the supplied fields of
      the first record with that id; every other record and the length are
      unchanged. On an absent id the table is unchanged. */
  lemma PatchedSpec(s: seq<Product>, id: int, patch: PartialProduct)
    ensures |Patched(s, id, patch)| == |s|
    ensures IndexOf(s, id).None? ==> Patched(s, id, patch) == s
    ensures IndexOf(s, id).Some? ==>
      var i := IndexOf(s, id).value;
      Patched(s, id, patch)[i] == ApplyPatch(s[i], patch) &&
      forall j :: 0 <= j < |s| && j != i ==> Patched(s, id, patch)[j] == s[j]
  {
  }

  lemma PatchedKeepsUnique(s: seq<Product>, id: int, patch: PartialProduct)
    requires UniqueIds(s)
    ensures UniqueIds(Patched(s, id, patch))
  {
    UpdateFirstKeepsIds(s, id, (p: Product) => ApplyPatch(p, patch));
  }

  /** Applying the same partial update twice equals applying it once. */
  lemma PatchedIdempotent(s: seq<Product>, id: int, patch: PartialProduct)
    ensures Patched(Patched(s, id, patch), id, patch) == Patched(s, id, patch)
  {
    var f := (p: Product) => ApplyPatch(p, patch);
    FindAfterUpdate(s, id, f);
    match IndexOf(s, id)
    case None =>
    case Some(i) =>
      ApplyPatchIdempotent(s[i], patch);
  }

  /** A partial update with every field absent leaves the table unchanged. */
  lemma PatchedEmpty(s: seq<Product>, id: int)
    ensures Patched(s, id, EmptyPatch()) == s
  {
    match IndexOf(s, id)
    case None =>
    case Some(i) =>
      ApplyEmptyPatch(s[i]);
  }

  /** A partial update supplying every field is the full replace. */
  lemma PatchedFullIsReplaced(s: seq<Product>, id: int, input: ProductInput)
    ensures Patched(s, id, FullPatch(input)) == Replaced(s, id, input)
  {
    match IndexOf(s, id)
    case None =>
    case Some(i) =>
      ApplyFullPatch(s[i], input);
  }

  // ---------------------------------------------------------------- delete

  lemma {:induction false} DropOneIsSubsequence(s: seq<Product>, i: nat)
    requires i < |s|
    ensures SubsequenceOf(s[..i] + s[i + 1..], s)
    decreases |s|
  {
    if i == 0 {
      assert s[..0] + s[1..] == s[1..];
      SubsequenceReflexive(s[1..]);
    } else {
      DropOneIsSubsequence(s[1..], i - 1);
      assert s[1..][..i - 1] + s[1..][i..] == (s[..i] + s[i + 1..])[1..];
    }
  }

  /** Delete on a present id removes exactly the first record with that id,
      keeps the order of the others and shortens the table by one. On an
      absent id the table is unchanged. */
  lemma RemovedSpec(s: seq<Product>, id: int)
    ensures IndexOf(s, id).None? ==> Removed(s, id) == s
    ensures IndexOf(s, id).Some? ==>
      var i := IndexOf(s, id).value;
      |Removed(s, id)| == |s| - 1 &&
      SubsequenceOf(Removed(s, id), s) &&
      multiset(Removed(s, id)) + multiset{s[i]} == multiset(s)
  {
    match IndexOf(s, id)
    case None =>
    case Some(i) =>
      DropOneIsSubsequence(s, i);
      assert s == s[..i] + [s[i]] + s[i + 1..];
  }

  /** Position `k` of the table after removing position `i`. */
  lemma RemovedAt(s: seq<Product>, i: nat, k: nat)
    requires i < |s| && k < |s| - 1
    ensures (s[..i] + s[i + 1..])[k] == if k < i then s[k] else s[k + 1]
  {
  }

  lemma RemovedKeepsUnique(s: seq<Product>, id: int)
    requires UniqueIds(s)
    ensures UniqueIds(Removed(s, id))
  {
    match IndexOf(s, id)
    case None =>
    case Some(i) =>
      var r := s[..i] + s[i + 1..];
      forall a, b | 0 <= a < b < |r|
        ensures r[a].id != r[b].id
      {
        RemovedAt(s, i, a);
        RemovedAt(s, i, b);
      }
  }

  /** With unique ids, a lookup after deleting an id finds nothing. */
  lemma FindAfterRemove(s: seq<Product>, id: int)
    requires UniqueIds(s)
    ensures Find(Removed(s, id), id) == NotFound
  {
    match IndexOf(s, id)
    case None =>
    case Some(i) =>
      var r := s[..i] + s[i + 1..];
      forall k | 0 <= k < |r|
        ensures r[k].id != id
      {
        RemovedAt(s, i, k);
      }
  }
}
