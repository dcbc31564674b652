/** The listing handler: the table narrowed by an optional case-insensitive
    name filter and then by an optional exact category filter. */
module Filtering {
  import opened Products

  /** Lower-case of one character. Only the ASCII letters A-Z are mapped;
      every other character is kept. */
  function LowerChar(c: char): char {
    if 'A' <= c <= 'Z' then (c as int + 32) as char else c
  }

  /** Lower-case of a string, character by character. */
  function Lower(s: string): (r: string)
    ensures |r| == |s|
    ensures forall i :: 0 <= i < |s| ==> r[i] == LowerChar(s[i])
    decreases |s|
  {
    if s == [] then [] else [LowerChar(s[0])] + Lower(s[1..])
  }

  /** Substring containment, the meaning of `needle in haystack` on strings. */
  predicate ContainsSubstring(haystack: string, needle: string) {
    exists k :: 0 <= k <= |haystack| && needle <= haystack[k..]
  }

  /** The name filter: the record's name contains `query`, ignoring case. */
  predicate NameMatches(p: Product, query: string) {
    ContainsSubstring(Lower(p.nombre), Lower(query))
  }

  /** A filter parameter takes effect only when it is present and non-empty:
      both `None` and `""` are skipped. */
  predicate Active(filter: Option<string>) {
    filter.Some? && filter.value != ""
  }

  /** Whether a record passes both filters of a listing request. */
  predicate Selected(p: Product, nombre: Option<string>, categoria: Option<string>) {
    (Active(nombre) ==> NameMatches(p, nombre.value)) &&
    (Active(categoria) ==> p.categoria == categoria.value)
  }

  /** `r` is `s` with some elements left out and the rest in their order. */
  predicate SubsequenceOf<T(==)>(r: seq<T>, s: seq<T>)
    decreases |s|
  {
    r == [] ||
    (s != [] && ((r[0] == s[0] && SubsequenceOf(r[1..], s[1..])) || SubsequenceOf(r, s[1..])))
  }

  lemma {:induction false} SubsequenceReflexive<T>(s: seq<T>)
    ensures SubsequenceOf(s, s)
    decreases |s|
  {
    if s != [] {
      SubsequenceReflexive(s[1..]);
    }
  }

  lemma {:induction false} SubsequenceTransitive<T>(a: seq<T>, b: seq<T>, c: seq<T>)
    requires SubsequenceOf(a, b) && SubsequenceOf(b, c)
    ensures SubsequenceOf(a, c)
    decreases |c|
  {
    if a != [] {
      if SubsequenceOf(b, c[1..]) {
        SubsequenceTransitive(a, b, c[1..]);
      } else if SubsequenceOf(a, b[1..]) {
        SubsequenceTransitive(a, b[1..], c[1..]);
      } else {
        SubsequenceTransitive(a[1..], b[1..], c[1..]);
      }
    }
  }

  /** The records of `s` that `keep` accepts, in their order (a list
      comprehension with a condition). */
  function Filter(s: seq<Product>, keep: Product -> bool): (r: seq<Product>)
    ensures SubsequenceOf(r, s)
    ensures forall p :: multiset(r)[p] == if keep(p) then multiset(s)[p] else 0
    ensures forall p :: p in r <==> p in s && keep(p)
    decreases |s|
  {
    if s == [] then []
    else
      assert s == [s[0]] + s[1..];
      if keep(s[0]) then [s[0]] + Filter(s[1..], keep) else Filter(s[1..], keep)
  }

  /** The listing: first the name filter when it is active, then the
      category filter when it is active. */
  function ListProducts(table: seq<Product>, nombre: Option<string>, categoria: Option<string>): (r: seq<Product>)
    ensures forall i :: 0 <= i < |r| ==> r[i] in table && Selected(r[i], nombre, categoria)
  {
    var byName := if Active(nombre) then Filter(table, (p: Product) => NameMatches(p, nombre.value)) else table;
    if Active(categoria) then Filter(byName, (p: Product) => p.categoria == categoria.value) else byName
  }

  /** The listing is exactly the selected records of the table: it keeps
      their order, every record it contains passes both filters, every
      selected record of the table is in it as often as in the table, and
      without an active filter it is the whole table. */
  lemma ListProductsSpec(table: seq<Product>, nombre: Option<string>, categoria: Option<string>)
    ensures SubsequenceOf(ListProducts(table, nombre, categoria), table)
    ensures forall p :: multiset(ListProducts(table, nombre, categoria))[p] ==
                        if Selected(p, nombre, categoria) then multiset(table)[p] else 0
    ensures forall p :: p in ListProducts(table, nombre, categoria) <==>
                        p in table && Selected(p, nombre, categoria)
    ensures !Active(nombre) && !Active(categoria) ==> ListProducts(table, nombre, categoria) == table
  {
    var byName := if Active(nombre) then Filter(table, (p: Product) => NameMatches(p, nombre.value)) else table;
    SubsequenceReflexive(table);
    if Active(categoria) {
      SubsequenceTransitive(ListProducts(table, nombre, categoria), byName, table);
    }
  }

  /** An empty-string filter is skipped exactly like an absent one. */
  lemma EmptyFilterSkipped(table: seq<Product>, nombre: Option<string>, categoria: Option<string>)
    ensures ListProducts(table, Some(""), categoria) == ListProducts(table, None, categoria)
    ensures ListProducts(table, nombre, Some("")) == ListProducts(table, nombre, None)
  {
  }
}
