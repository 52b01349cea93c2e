/**
  The order of rows in the folder table: the comparators, and the stable sort they are given to.
 */

/** Sorting with a comparator, and what makes the result the only possible one. */
module StableSorting {

  predicate SignFlipsAt<T>(cmp: (T, T) -> int, a: T, b: T) {
    cmp(a, b) < 0 <==> cmp(b, a) > 0
  }

  predicate TransitiveAt<T>(cmp: (T, T) -> int, a: T, b: T, c: T) {
    cmp(a, b) <= 0 && cmp(b, c) <= 0 ==> cmp(a, c) <= 0
  }

  function Elements<T>(s: seq<T>): set<T> {
    set x | x in s
  }

  /** On these elements the comparator is a total preorder whose sign flips with its arguments. */
  ghost predicate TotalPreorder<T(!new)>(cmp: (T, T) -> int, S: set<T>) {
    && (forall a, b {:trigger SignFlipsAt(cmp, a, b)} :: a in S && b in S ==> SignFlipsAt(cmp, a, b))
    && (forall a, b, c {:trigger TransitiveAt(cmp, a, b, c)} :: a in S && b in S && c in S ==>
        TransitiveAt(cmp, a, b, c))
  }

  predicate SortedBy<T>(cmp: (T, T) -> int, s: seq<T>) {
    forall i, j :: 0 <= i < j < |s| ==> cmp(s[i], s[j]) <= 0
  }

  /** The elements that compare equal to `x`, in their order. */
  function Ties<T>(cmp: (T, T) -> int, x: T, s: seq<T>): seq<T> {
    if s == [] then [] else Ties(cmp, x, s[..|s| - 1]) + if cmp(x, s[|s| - 1]) == 0 then [s[|s| - 1]] else []
  }

  ghost predicate SameTies<T(!new)>(cmp: (T, T) -> int, a: seq<T>, b: seq<T>, S: set<T>) {
    forall x :: x in S ==> Ties(cmp, x, a) == Ties(cmp, x, b)
  }

  /** `out` is `s` sorted stably: a permutation, in order, with ties as they came. */
  ghost predicate StablySorts<T(!new)>(cmp: (T, T) -> int, s: seq<T>, out: seq<T>) {
    multiset(out) == multiset(s) && SortedBy(cmp, out) && SameTies(cmp, out, s, Elements(s))
  }

  /** Inserts `x` behind every element that does not exceed it. */
  function Insert<T>(cmp: (T, T) -> int, s: seq<T>, x: T): seq<T> {
    if s == [] || cmp(s[|s| - 1], x) <= 0 then s + [x]
    else Insert(cmp, s[..|s| - 1], x) + [s[|s| - 1]]
  }

  function StableSort<T>(cmp: (T, T) -> int, s: seq<T>): seq<T> {
    if s == [] then [] else Insert(cmp, StableSort(cmp, s[..|s| - 1]), s[|s| - 1])
  }

  lemma SameElements<T>(a: seq<T>, b: seq<T>)
    requires multiset(a) == multiset(b)
    ensures |a| == |b| && forall x :: x in a <==> x in b
  {
    forall x ensures x in a <==> x in b {
      assert x in a <==> x in multiset(a);
      assert x in b <==> x in multiset(b);
    }
    assert |multiset(a)| == |a| && |multiset(b)| == |b|;
  }

  lemma Preorder<T(!new)>(cmp: (T, T) -> int, S: set<T>, a: T, b: T, c: T)
    requires TotalPreorder(cmp, S) && a in S && b in S && c in S
    ensures cmp(a, b) < 0 <==> cmp(b, a) > 0
    ensures cmp(a, b) <= 0 && cmp(b, c) <= 0 ==> cmp(a, c) <= 0
  {
    assert SignFlipsAt(cmp, a, b) && SignFlipsAt(cmp, b, a) && TransitiveAt(cmp, a, b, c);
  }

  lemma SplitLast<T>(s: seq<T>)
    requires s != []
    ensures s == s[..|s| - 1] + [s[|s| - 1]]
    ensures forall x :: x in s <==> x in s[..|s| - 1] || x == s[|s| - 1]
    ensures multiset(s) == multiset(s[..|s| - 1]) + multiset{s[|s| - 1]}
  {
  }

  lemma {:induction false} InsertPermutes<T>(cmp: (T, T) -> int, s: seq<T>, x: T)
    ensures multiset(Insert(cmp, s, x)) == multiset(s) + multiset{x}
    decreases |s|
  {
    if s != [] && !(cmp(s[|s| - 1], x) <= 0) {
      InsertPermutes(cmp, s[..|s| - 1], x);
      SplitLast(s);
    }
  }

  lemma InsertElements<T>(cmp: (T, T) -> int, s: seq<T>, x: T)
    ensures forall y :: y in Insert(cmp, s, x) <==> y in s || y == x
  {
  }

  predicate NoneExceeds<T>(cmp: (T, T) -> int, s: seq<T>, x: T) {
    forall i :: 0 <= i < |s| ==> cmp(s[i], x) <= 0
  }

  lemma SortedSnoc<T>(cmp: (T, T) -> int, s: seq<T>, x: T)
    requires SortedBy(cmp, s) && NoneExceeds(cmp, s, x)
    ensures SortedBy(cmp, s + [x])
  {
  }

  lemma {:induction false} InsertSorts<T(!new)>(cmp: (T, T) -> int, s: seq<T>, x: T, S: set<T>)
    requires TotalPreorder(cmp, S) && SortedBy(cmp, s) && x in S && forall y :: y in s ==> y in S
    ensures SortedBy(cmp, Insert(cmp, s, x))
    decreases |s|
  {
    if s != [] {
      var init, last := s[..|s| - 1], s[|s| - 1];
      SplitLast(s);
      Preorder(cmp, S, last, x, x);
      if cmp(last, x) <= 0 {
        forall i | 0 <= i < |s| ensures cmp(s[i], x) <= 0 {
          Preorder(cmp, S, s[i], last, x);
          Preorder(cmp, S, last, last, last);
        }
        SortedSnoc(cmp, s, x);
      } else {
        var inserted := Insert(cmp, init, x);
        InsertSorts(cmp, init, x, S);
        InsertElements(cmp, init, x);
        forall i | 0 <= i < |inserted| ensures cmp(inserted[i], last) <= 0 {
          assert inserted[i] in inserted;
        }
        SortedSnoc(cmp, inserted, last);
      }
    }
  }

  lemma TiesSnoc<T>(cmp: (T, T) -> int, x: T, s: seq<T>, y: T)
    ensures Ties(cmp, x, s + [y]) == Ties(cmp, x, s) + if cmp(x, y) == 0 then [y] else []
  {
  }

  /** Two elements cannot tie with a third while one exceeds the other. */
  lemma TiesAreTied<T(!new)>(cmp: (T, T) -> int, S: set<T>, y: T, a: T, b: T)
    requires TotalPreorder(cmp, S) && y in S && a in S && b in S && cmp(y, a) == 0 && cmp(y, b) == 0
    ensures cmp(a, b) == 0
  {
    Preorder(cmp, S, y, a, b);
    Preorder(cmp, S, y, b, a);
    Preorder(cmp, S, a, y, b);
    Preorder(cmp, S, b, y, a);
    Preorder(cmp, S, a, b, a);
    Preorder(cmp, S, b, a, b);
  }

  /** Inserting adds `x` as the last of its ties, and changes no other ties. */
  lemma {:induction false} InsertKeepsTies<T(!new)>(cmp: (T, T) -> int, s: seq<T>, x: T, y: T, S: set<T>)
    requires TotalPreorder(cmp, S) && y in S && x in S && forall z :: z in s ==> z in S
    ensures Ties(cmp, y, Insert(cmp, s, x)) == Ties(cmp, y, s + [x])
    decreases |s|
  {
    if s != [] && !(cmp(s[|s| - 1], x) <= 0) {
      var init, last := s[..|s| - 1], s[|s| - 1];
      SplitLast(s);
      InsertKeepsTies(cmp, init, x, y, S);
      if cmp(y, x) == 0 && cmp(y, last) == 0 {
        TiesAreTied(cmp, S, y, last, x);
      }
      TiesSnoc(cmp, y, Insert(cmp, init, x), last);
      UntiedSwap(cmp, y, init, x, last);
    }
  }

  lemma UntiedSwap<T>(cmp: (T, T) -> int, y: T, s: seq<T>, a: T, b: T)
    requires cmp(y, a) != 0 || cmp(y, b) != 0
    ensures Ties(cmp, y, s + [b] + [a]) == Ties(cmp, y, s + [a]) + if cmp(y, b) == 0 then [b] else []
  {
  }

  lemma {:induction false} NoTies<T>(cmp: (T, T) -> int, x: T, s: seq<T>)
    requires forall y :: y in s ==> cmp(x, y) != 0
    ensures Ties(cmp, x, s) == []
    decreases |s|
  {
    if s != [] {
      SplitLast(s);
      NoTies(cmp, x, s[..|s| - 1]);
    }
  }

  lemma {:induction false} SortKeeps<T(!new)>(cmp: (T, T) -> int, s: seq<T>, S: set<T>)
    requires TotalPreorder(cmp, S) && forall y :: y in s ==> y in S
    ensures multiset(StableSort(cmp, s)) == multiset(s)
    ensures SortedBy(cmp, StableSort(cmp, s))
    ensures SameTies(cmp, StableSort(cmp, s), s, S)
    decreases |s|
  {
    if s != [] {
      var init, last := s[..|s| - 1], s[|s| - 1];
      var sorted := StableSort(cmp, init);
      SplitLast(s);
      SortKeeps(cmp, init, S);
      SameElements(sorted, init);
      InsertPermutes(cmp, sorted, last);
      InsertSorts(cmp, sorted, last, S);
      forall x | x in S ensures Ties(cmp, x, StableSort(cmp, s)) == Ties(cmp, x, s) {
        InsertKeepsTies(cmp, sorted, last, x, S);
        TiesSnoc(cmp, x, sorted, last);
        TiesSnoc(cmp, x, init, last);
      }
    }
  }

  /** Sorting gives a stable sort of any list on which the comparator is a total preorder. */
  lemma SortIsStable<T(!new)>(cmp: (T, T) -> int, s: seq<T>)
    requires TotalPreorder(cmp, Elements(s))
    ensures StablySorts(cmp, s, StableSort(cmp, s))
  {
    SortKeeps(cmp, s, Elements(s));
  }

  lemma LastIsGreatest<T(!new)>(cmp: (T, T) -> int, s: seq<T>, x: T, S: set<T>)
    requires TotalPreorder(cmp, S) && s != [] && SortedBy(cmp, s) && x in s && forall y :: y in s ==> y in S
    ensures cmp(x, s[|s| - 1]) <= 0
  {
    var i :| 0 <= i < |s| && s[i] == x;
    Preorder(cmp, S, x, x, x);
  }

  /** The last elements of two sorted permutations tie, and being the last of the same ties they are equal. */
  lemma SameLast<T(!new)>(cmp: (T, T) -> int, a: seq<T>, b: seq<T>, S: set<T>)
    requires TotalPreorder(cmp, S) && SortedBy(cmp, a) && SortedBy(cmp, b) && multiset(a) == multiset(b) && a != []
    requires SameTies(cmp, a, b, S) && forall y :: y in a ==> y in S
    ensures b != [] && a[|a| - 1] == b[|b| - 1]
  {
    SameElements(a, b);
    var p, q := a[|a| - 1], b[|b| - 1];
    LastIsGreatest(cmp, a, q, S);
    LastIsGreatest(cmp, b, p, S);
    Preorder(cmp, S, p, q, p);
    Preorder(cmp, S, q, p, q);
    Preorder(cmp, S, p, p, p);
    LastTie(cmp, p, a);
    LastTie(cmp, p, b);
  }

  lemma LastTie<T>(cmp: (T, T) -> int, x: T, s: seq<T>)
    requires s != [] && cmp(x, s[|s| - 1]) == 0
    ensures Ties(cmp, x, s) != [] && Ties(cmp, x, s)[|Ties(cmp, x, s)| - 1] == s[|s| - 1]
  {
  }

  lemma SameInitTies<T>(cmp: (T, T) -> int, x: T, u: seq<T>, v: seq<T>, p: T)
    requires Ties(cmp, x, u + [p]) == Ties(cmp, x, v + [p])
    ensures Ties(cmp, x, u) == Ties(cmp, x, v)
  {
    TiesSnoc(cmp, x, u, p);
    TiesSnoc(cmp, x, v, p);
    var tu, tv, t := Ties(cmp, x, u), Ties(cmp, x, v), if cmp(x, p) == 0 then [p] else [];
    assert tu == (tu + t)[..|tu + t| - |t|];
    assert tv == (tv + t)[..|tv + t| - |t|];
  }

  lemma SameInits<T(!new)>(cmp: (T, T) -> int, a: seq<T>, b: seq<T>, p: T, S: set<T>)
    requires multiset(a + [p]) == multiset(b + [p]) && SameTies(cmp, a + [p], b + [p], S)
    ensures multiset(a) == multiset(b) && SameTies(cmp, a, b, S)
  {
    assert multiset(a) == multiset(a + [p]) - multiset{p};
    assert multiset(b) == multiset(b + [p]) - multiset{p};
    forall x | x in S ensures Ties(cmp, x, a) == Ties(cmp, x, b) {
      SameInitTies(cmp, x, a, b, p);
    }
  }

  /** There is only one stable sort of a list: the result does not depend on the algorithm. */
  lemma {:induction false} StableSortUnique<T(!new)>(cmp: (T, T) -> int, a: seq<T>, b: seq<T>, S: set<T>)
    requires TotalPreorder(cmp, S) && SortedBy(cmp, a) && SortedBy(cmp, b) && multiset(a) == multiset(b)
    requires SameTies(cmp, a, b, S) && forall y :: y in a ==> y in S
    ensures a == b
    decreases |a|
  {
    SameElements(a, b);
    if a != [] {
      SameLast(cmp, a, b, S);
      assert a == a[..|a| - 1] + [a[|a| - 1]] && b == b[..|b| - 1] + [a[|a| - 1]];
      SameInits(cmp, a[..|a| - 1], b[..|b| - 1], a[|a| - 1], S);
      SplitLast(a);
      SplitLast(b);
      StableSortUnique(cmp, a[..|a| - 1], b[..|b| - 1], S);
    }
  }

  /** Whatever stable sort the platform uses, it returns this one. */
  lemma AnyStableSort<T(!new)>(cmp: (T, T) -> int, s: seq<T>, out: seq<T>)
    requires TotalPreorder(cmp, Elements(s)) && StablySorts(cmp, s, out)
    ensures out == StableSort(cmp, s)
  {
    SortIsStable(cmp, s);
    SameElements(out, s);
    StableSortUnique(cmp, out, StableSort(cmp, s), Elements(s));
  }

  function Mapped<T>(f: T -> T, s: seq<T>): seq<T> {
    if s == [] then [] else Mapped(f, s[..|s| - 1]) + [f(s[|s| - 1])]
  }

  lemma MappedSnoc<T>(f: T -> T, s: seq<T>, x: T)
    ensures Mapped(f, s + [x]) == Mapped(f, s) + [f(x)]
  {
  }

  /** A change of elements that the comparator cannot see. */
  ghost predicate Unseen<T(!new)>(cmp: (T, T) -> int, f: T -> T) {
    forall a, b :: cmp(f(a), f(b)) == cmp(a, b)
  }

  lemma {:induction false} InsertNatural<T(!new)>(cmp: (T, T) -> int, f: T -> T, s: seq<T>, x: T)
    requires Unseen(cmp, f)
    ensures Insert(cmp, Mapped(f, s), f(x)) == Mapped(f, Insert(cmp, s, x))
    decreases |s|
  {
    MappedSnoc(f, s, x);
    if s != [] && !(cmp(s[|s| - 1], x) <= 0) {
      var init, last := s[..|s| - 1], s[|s| - 1];
      InsertNatural(cmp, f, init, x);
      MappedSnoc(f, Insert(cmp, init, x), last);
      assert Mapped(f, s)[..|Mapped(f, s)| - 1] == Mapped(f, init);
    }
  }

  /** Sorting does not notice such a change. */
  lemma {:induction false} SortNatural<T(!new)>(cmp: (T, T) -> int, f: T -> T, s: seq<T>)
    requires Unseen(cmp, f)
    ensures StableSort(cmp, Mapped(f, s)) == Mapped(f, StableSort(cmp, s))
    decreases |s|
  {
    if s != [] {
      var init, last := s[..|s| - 1], s[|s| - 1];
      SortNatural(cmp, f, init);
      InsertNatural(cmp, f, StableSort(cmp, init), last);
      assert Mapped(f, s)[..|Mapped(f, s)| - 1] == Mapped(f, init);
    }
  }
}

module TableSort {
  import opened Prelude
  import opened StringOrder
  import opened StableSorting

  /** A modification time as a Date: milliseconds, or the invalid date an unreadable string gives. */
  datatype Time = Millis(ms: int) | Invalid

  datatype Item = Item(path: string, name: string, size: Option<int>, modTime: Option<Time>,
      mimeType: Option<string>, isDir: bool)

  datatype Field = ByName | BySize | ByLastModified | ByMimeType

  datatype Direction = Asc | Desc

  datatype SortConfig = SortConfig(field: Field, direction: Direction)

  /** String functions of the platform: toLowerCase and localeCompare. */
  datatype Locale = Locale(lower: string -> string, compare: (string, string) -> int) {
    ghost predicate Orders() {
      && (forall a, b :: compare(a, b) < 0 <==> compare(b, a) > 0)
      && forall a, b, c :: compare(a, b) <= 0 && compare(b, c) <= 0 ==> compare(a, c) <= 0
    }
  }

  /** What the comparator compares; NaN is neither less nor greater than anything. */
  datatype Key = Chars(s: string) | Number(n: int) | NaN

  function KeyOf(l: Locale, field: Field, item: Item): Key {
    match field
    case ByName => Chars(l.lower(item.name))
    case BySize => Number(if item.size.Some? then item.size.value else 0)
    case ByLastModified =>
      if item.modTime.None? then Number(0) else if item.modTime.value.Invalid? then NaN
        else Number(item.modTime.value.ms)
    case ByMimeType => Chars(l.lower(if item.mimeType.Some? then item.mimeType.value else ""))
  }

  predicate KeyLess(a: Key, b: Key) {
    (a.Chars? && b.Chars? && Less(a.s, b.s)) || (a.Number? && b.Number? && a.n < b.n)
  }

  /** The comparator passed to sort; without a configuration, folders first and then names in locale order. */
  function Compare(l: Locale, sort: Option<SortConfig>, a: Item, b: Item): int {
    if a.isDir && !b.isDir then -1
    else if !a.isDir && b.isDir then 1
    else match sort
         case None => l.compare(l.lower(a.name), l.lower(b.name))
         case Some(SortConfig(field, direction)) =>
           var valA, valB := KeyOf(l, field, a), KeyOf(l, field, b);
           if KeyLess(valA, valB) then if direction.Asc? then -1 else 1
           else if KeyLess(valB, valA) then if direction.Asc? then 1 else -1
           else 0
  }

  function Comparator(l: Locale, sort: Option<SortConfig>): (Item, Item) -> int {
    (a, b) => Compare(l, sort, a, b)
  }

  function SortItems(l: Locale, sort: Option<SortConfig>, items: seq<Item>): seq<Item> {
    StableSort(Comparator(l, sort), items)
  }

  /** How many of the last clicks were on the column clicked last. */
  function Streak(clicks: seq<Field>): nat {
    if clicks == [] then 0
    else if |clicks| > 1 && clicks[|clicks| - 2] == clicks[|clicks| - 1] then 1 + Streak(clicks[..|clicks| - 1])
    else 1
  }

  /** What the clicks so far configure: the last column, ascending after an odd number of clicks in a row. */
  function Clicked(clicks: seq<Field>): Option<SortConfig> {
    if clicks == [] then None
    else Some(SortConfig(clicks[|clicks| - 1], if Streak(clicks) % 2 == 1 then Asc else Desc))
  }

  /** The component: its sort configuration changes with clicks on the column headers. */
  class FolderListTable {
    var sortConfig: Option<SortConfig>
    ghost var clicks: seq<Field>

    ghost predicate Valid()
      reads this
    {
      sortConfig == Clicked(clicks)
    }

    constructor ()
      ensures Valid() && clicks == []
    {
      sortConfig := None;
      clicks := [];
    }

    method ToggleSort(field: Field)
      requires Valid()
      modifies this
      ensures Valid() && clicks == old(clicks) + [field]
    {
      assert (clicks + [field])[..|clicks|] == clicks;
      if sortConfig.Some? && sortConfig.value.field == field {
        sortConfig := Some(SortConfig(field, if sortConfig.value.direction.Asc? then Desc else Asc));
      } else {
        sortConfig := Some(SortConfig(field, Asc));
      }
      clicks := clicks + [field];
    }
  }

  /** `n` clicks in a row on a column that was not the last: ascending for odd `n` and descending for even `n`. */
  lemma {:induction false} ClicksAlternate(before: seq<Field>, field: Field, n: nat)
    requires n > 0 && (before == [] || before[|before| - 1] != field)
    ensures Streak(before + seq(n, _ => field)) == n
    ensures Clicked(before + seq(n, _ => field)) == Some(SortConfig(field, if n % 2 == 1 then Asc else Desc))
    decreases n
  {
    var clicks := before + seq(n, _ => field);
    assert clicks[..|clicks| - 1] == before + seq(n - 1, _ => field);
    assert clicks[|clicks| - 1] == field;
    if n > 1 {
      ClicksAlternate(before, field, n - 1);
      assert clicks[|clicks| - 2] == field;
    }
  }

  // ---------------------------------------------------------------- when the comparator is an order

  /** An invalid date beside two different valid ones, among folders or among files. */
  predicate Undated(l: Locale, items: seq<Item>, x: Item, y: Item, z: Item) {
    && x in items && y in items && z in items && x.isDir == y.isDir == z.isDir
    && KeyOf(l, ByLastModified, x).NaN? && KeyLess(KeyOf(l, ByLastModified, y), KeyOf(l, ByLastModified, z))
  }

  lemma KeyOrder(a: Key, b: Key, c: Key)
    ensures !(KeyLess(a, b) && KeyLess(b, a))
    ensures KeyLess(a, b) && KeyLess(b, c) ==> KeyLess(a, c)
    ensures a.Chars? && b.Chars? && c.Chars? && !KeyLess(b, a) && !KeyLess(c, b) ==> !KeyLess(c, a)
    ensures a.Number? && b.Number? && c.Number? && !KeyLess(b, a) && !KeyLess(c, b) ==> !KeyLess(c, a)
  {
    if a.Chars? && b.Chars? && c.Chars? {
      LessTrichotomy(a.s, b.s);
      LessTrichotomy(b.s, c.s);
      LessTrichotomy(a.s, c.s);
      if Less(a.s, b.s) && Less(b.s, c.s) {
        LessTransitive(a.s, b.s, c.s);
      }
      if Less(c.s, a.s) && Less(a.s, b.s) {
        LessTransitive(c.s, a.s, b.s);
      }
    } else if a.Chars? && b.Chars? {
      LessTrichotomy(a.s, b.s);
    }
  }

  lemma KeyKind(l: Locale, field: Field, a: Item, b: Item)
    ensures !field.ByLastModified? ==>
      !KeyOf(l, field, a).NaN? && (KeyOf(l, field, a).Chars? <==> KeyOf(l, field, b).Chars?)
    ensures field.ByLastModified? ==> !KeyOf(l, field, a).Chars?
  {
  }

  /** The comparator of a column is transitive on three items unless one has no date and the other two differ. */
  lemma TransitiveOnThree(l: Locale, config: SortConfig, items: seq<Item>, a: Item, b: Item, c: Item)
    requires a in items && b in items && c in items
    requires config.field.ByLastModified? ==> !exists x, y, z :: Undated(l, items, x, y, z)
    requires Compare(l, Some(config), a, b) <= 0 && Compare(l, Some(config), b, c) <= 0
    ensures Compare(l, Some(config), a, c) <= 0
  {
    var ka, kb, kc := KeyOf(l, config.field, a), KeyOf(l, config.field, b), KeyOf(l, config.field, c);
    KeyKind(l, config.field, a, b);
    KeyKind(l, config.field, b, c);
    KeyOrder(ka, kb, kc);
    KeyOrder(kc, kb, ka);
    if a.isDir == b.isDir == c.isDir && kb.NaN? {
      assert !Undated(l, items, b, a, c) && !Undated(l, items, b, c, a);
    }
  }

  lemma SignFlips(l: Locale, sort: Option<SortConfig>, a: Item, b: Item)
    requires sort.None? ==> l.Orders()
    ensures Compare(l, sort, a, b) < 0 <==> Compare(l, sort, b, a) > 0
  {
    if sort.Some? {
      KeyOrder(KeyOf(l, sort.value.field, a), KeyOf(l, sort.value.field, b), KeyOf(l, sort.value.field, a));
    }
  }

  /**
    Every comparator is a total preorder on every list, except that of the date column, which is one exactly
    when the list has no invalid date beside two different valid dates of the same kind of item.
   */
  lemma ComparatorIsOrder(l: Locale, sort: Option<SortConfig>, items: seq<Item>)
    requires sort.None? ==> l.Orders()
    ensures TotalPreorder(Comparator(l, sort), Elements(items))
       <==> !(sort.Some? && sort.value.field.ByLastModified? && exists x, y, z :: Undated(l, items, x, y, z))
  {
    var cmp, S := Comparator(l, sort), Elements(items);
    forall a, b ensures SignFlipsAt(cmp, a, b) {
      SignFlips(l, sort, a, b);
    }
    if sort.Some? && sort.value.field.ByLastModified? && exists x, y, z :: Undated(l, items, x, y, z) {
      var x, y, z :| Undated(l, items, x, y, z);
      assert x in S && y in S && z in S;
      assert !TransitiveAt(cmp, z, x, y) || !TransitiveAt(cmp, y, x, z);
    } else {
      forall a, b, c | a in S && b in S && c in S ensures TransitiveAt(cmp, a, b, c) {
        if sort.Some? && cmp(a, b) <= 0 && cmp(b, c) <= 0 {
          TransitiveOnThree(l, sort.value, items, a, b, c);
        }
      }
    }
  }

  function Dated(time: Time): Item {
    Item("", "", None, Some(time), None, false)
  }

  /** An invalid date between two others ties with both, and they differ. */
  lemma InvalidDateBreaksOrder(l: Locale)
    ensures var items := [Dated(Millis(1)), Dated(Invalid), Dated(Millis(2))];
            !TotalPreorder(Comparator(l, Some(SortConfig(ByLastModified, Asc))), Elements(items))
  {
    var items := [Dated(Millis(1)), Dated(Invalid), Dated(Millis(2))];
    assert Undated(l, items, items[1], items[0], items[2]);
    ComparatorIsOrder(l, Some(SortConfig(ByLastModified, Asc)), items);
  }

  // ---------------------------------------------------------------- the table

  /** The rows are the items, in comparator order, ties in the order received, and all folders before all files. */
  lemma TableOrder(l: Locale, sort: Option<SortConfig>, items: seq<Item>)
    requires TotalPreorder(Comparator(l, sort), Elements(items))
    ensures StablySorts(Comparator(l, sort), items, SortItems(l, sort, items))
    ensures |SortItems(l, sort, items)| == |items|
    ensures forall i, j :: 0 <= i < j < |items| && SortItems(l, sort, items)[j].isDir ==>
              SortItems(l, sort, items)[i].isDir
  {
    var cmp, out := Comparator(l, sort), SortItems(l, sort, items);
    SortIsStable(cmp, items);
    SameElements(out, items);
    forall i, j | 0 <= i < j < |out| && out[j].isDir ensures out[i].isDir {
      assert cmp(out[i], out[j]) <= 0;
    }
  }

  // ---------------------------------------------------------------- the rows by the items' own fields

  function Size(item: Item): int {
    match item.size
    case Some(size) => size
    case None => 0
  }

  /** Milliseconds since the epoch, for an item without an invalid date. */
  function Moment(item: Item): int {
    match item.modTime
    case Some(Millis(ms)) => ms
    case _ => 0
  }

  function Type(item: Item): string {
    match item.mimeType
    case Some(mimeType) => mimeType
    case None => ""
  }

  predicate DatesValid(items: seq<Item>) {
    forall i :: 0 <= i < |items| ==> items[i].modTime != Some(Invalid)
  }

  /** The rows of the same kind at `i` and, further down, at `j`. */
  predicate Above(rows: seq<Item>, i: nat, j: nat) {
    i < j < |rows| && rows[i].isDir == rows[j].isDir
  }

  /** Sorted by size, the rows of one kind grow or shrink in size downwards. */
  lemma SizesInOrder(l: Locale, items: seq<Item>, i: nat, j: nat)
    ensures var rows := SortItems(l, Some(SortConfig(BySize, Asc)), items);
            Above(rows, i, j) ==> Size(rows[i]) <= Size(rows[j])
    ensures var rows := SortItems(l, Some(SortConfig(BySize, Desc)), items);
            Above(rows, i, j) ==> Size(rows[i]) >= Size(rows[j])
  {
    RowsInOrder(l, SortConfig(BySize, Asc), items, i, j);
    RowsInOrder(l, SortConfig(BySize, Desc), items, i, j);
  }

  lemma MomentsInOrder(l: Locale, items: seq<Item>, i: nat, j: nat)
    requires DatesValid(items)
    ensures var rows := SortItems(l, Some(SortConfig(ByLastModified, Asc)), items);
            Above(rows, i, j) ==> Moment(rows[i]) <= Moment(rows[j])
    ensures var rows := SortItems(l, Some(SortConfig(ByLastModified, Desc)), items);
            Above(rows, i, j) ==> Moment(rows[i]) >= Moment(rows[j])
  {
    RowsInOrder(l, SortConfig(ByLastModified, Asc), items, i, j);
    RowsInOrder(l, SortConfig(ByLastModified, Desc), items, i, j);
    RowsAreDated(l, SortConfig(ByLastModified, Asc), items);
    RowsAreDated(l, SortConfig(ByLastModified, Desc), items);
  }

  /** Sorted by name, no lower row of the kind has a name before that of an upper one in lower case, or after it. */
  lemma NamesInOrder(l: Locale, items: seq<Item>, i: nat, j: nat)
    ensures var rows := SortItems(l, Some(SortConfig(ByName, Asc)), items);
            Above(rows, i, j) ==> !Less(l.lower(rows[j].name), l.lower(rows[i].name))
    ensures var rows := SortItems(l, Some(SortConfig(ByName, Desc)), items);
            Above(rows, i, j) ==> !Less(l.lower(rows[i].name), l.lower(rows[j].name))
  {
    RowsInOrder(l, SortConfig(ByName, Asc), items, i, j);
    RowsInOrder(l, SortConfig(ByName, Desc), items, i, j);
    var rows := SortItems(l, Some(SortConfig(ByName, Asc)), items);
    if Above(rows, i, j) {
      LessTrichotomy(l.lower(rows[i].name), l.lower(rows[j].name));
    }
  }

  lemma TypesInOrder(l: Locale, items: seq<Item>, i: nat, j: nat)
    ensures var rows := SortItems(l, Some(SortConfig(ByMimeType, Asc)), items);
            Above(rows, i, j) ==> !Less(l.lower(Type(rows[j])), l.lower(Type(rows[i])))
    ensures var rows := SortItems(l, Some(SortConfig(ByMimeType, Desc)), items);
            Above(rows, i, j) ==> !Less(l.lower(Type(rows[i])), l.lower(Type(rows[j])))
  {
    RowsInOrder(l, SortConfig(ByMimeType, Asc), items, i, j);
    RowsInOrder(l, SortConfig(ByMimeType, Desc), items, i, j);
    var rows := SortItems(l, Some(SortConfig(ByMimeType, Asc)), items);
    if Above(rows, i, j) {
      LessTrichotomy(l.lower(Type(rows[i])), l.lower(Type(rows[j])));
    }
  }

  /** Without a configuration, the rows of one kind are in locale order of their lowered names. */
  lemma DefaultInOrder(l: Locale, items: seq<Item>, i: nat, j: nat)
    requires l.Orders()
    ensures var rows := SortItems(l, None, items);
            Above(rows, i, j) ==> l.compare(l.lower(rows[i].name), l.lower(rows[j].name)) <= 0
  {
    ComparatorIsOrder(l, None, items);
    SortIsStable(Comparator(l, None), items);
    var rows := SortItems(l, None, items);
    if Above(rows, i, j) {
      assert Comparator(l, None)(rows[i], rows[j]) <= 0;
    }
  }

  lemma RowsInOrder(l: Locale, config: SortConfig, items: seq<Item>, i: nat, j: nat)
    requires config.field.ByLastModified? ==> DatesValid(items)
    ensures var rows := SortItems(l, Some(config), items);
            Above(rows, i, j) ==> Compare(l, Some(config), rows[i], rows[j]) <= 0
  {
    if config.field.ByLastModified? {
      forall x, y, z ensures !Undated(l, items, x, y, z) {
        if x in items {
          var k :| 0 <= k < |items| && items[k] == x;
        }
      }
    }
    ComparatorIsOrder(l, Some(config), items);
    SortIsStable(Comparator(l, Some(config)), items);
    var rows := SortItems(l, Some(config), items);
    if Above(rows, i, j) {
      assert Comparator(l, Some(config))(rows[i], rows[j]) <= 0;
    }
  }

  lemma RowsAreDated(l: Locale, config: SortConfig, items: seq<Item>)
    requires config.field.ByLastModified? && DatesValid(items)
    ensures DatesValid(SortItems(l, Some(config), items))
  {
    forall x, y, z ensures !Undated(l, items, x, y, z) {
      if x in items {
        var k :| 0 <= k < |items| && items[k] == x;
      }
    }
    ComparatorIsOrder(l, Some(config), items);
    SortIsStable(Comparator(l, Some(config)), items);
    var rows := SortItems(l, Some(config), items);
    SameElements(rows, items);
    forall i | 0 <= i < |rows| ensures rows[i].modTime != Some(Invalid) {
      assert rows[i] in rows;
      var k :| 0 <= k < |items| && items[k] == rows[i];
    }
  }

  /** The item with every missing value given: size 0, the epoch, and the empty type. */
  function Filled(item: Item): Item {
    item.(size := Some(if item.size.Some? then item.size.value else 0),
          modTime := Some(if item.modTime.Some? then item.modTime.value else Millis(0)),
          mimeType := Some(if item.mimeType.Some? then item.mimeType.value else ""))
  }

  /** Missing values rank as the field's default: filling them in and sorting is sorting and filling them in. */
  lemma MissingRanksAsDefault(l: Locale, sort: Option<SortConfig>, items: seq<Item>)
    ensures SortItems(l, sort, Mapped(Filled, items)) == Mapped(Filled, SortItems(l, sort, items))
  {
    var cmp := Comparator(l, sort);
    forall a, b ensures cmp(Filled(a), Filled(b)) == cmp(a, b) {
      if sort.Some? {
        assert KeyOf(l, sort.value.field, Filled(a)) == KeyOf(l, sort.value.field, a);
        assert KeyOf(l, sort.value.field, Filled(b)) == KeyOf(l, sort.value.field, b);
      }
    }
    SortNatural(cmp, Filled, items);
  }

  function Block(isDir: bool, items: seq<Item>): seq<Item> {
    if items == [] then []
    else Block(isDir, items[..|items| - 1]) + if items[|items| - 1].isDir == isDir then [items[|items| - 1]] else []
  }

  function Reversed<T>(s: seq<T>): seq<T> {
    if s == [] then [] else [s[|s| - 1]] + Reversed(s[..|s| - 1])
  }

  lemma {:induction false} ReversedAt<T>(s: seq<T>, i: nat)
    requires i < |s|
    ensures |Reversed(s)| == |s| && Reversed(s)[i] == s[|s| - 1 - i]
    decreases |s|
  {
    if |s| > 1 {
      ReversedAt(s[..|s| - 1], if i > 0 then i - 1 else 0);
    }
  }

  lemma {:induction false} ReversedSame<T>(s: seq<T>)
    ensures multiset(Reversed(s)) == multiset(s)
    decreases |s|
  {
    if s != [] {
      ReversedSame(s[..|s| - 1]);
      assert s == s[..|s| - 1] + [s[|s| - 1]];
    }
  }

  lemma {:induction false} BlockShape(isDir: bool, items: seq<Item>)
    ensures forall x :: x in Block(isDir, items) <==> x in items && x.isDir == isDir
    decreases |items|
  {
    if items != [] {
      BlockShape(isDir, items[..|items| - 1]);
      assert items == items[..|items| - 1] + [items[|items| - 1]];
    }
  }

  lemma {:induction false} BlocksSplit(items: seq<Item>)
    ensures multiset(Block(true, items)) + multiset(Block(false, items)) == multiset(items)
    decreases |items|
  {
    if items != [] {
      BlocksSplit(items[..|items| - 1]);
      SplitLast(items);
      var last := items[|items| - 1];
      assert multiset(Block(last.isDir, items)) == multiset(Block(last.isDir, items[..|items| - 1])) + multiset{last};
      assert Block(!last.isDir, items) == Block(!last.isDir, items[..|items| - 1]);
    }
  }

  lemma {:induction false} BlockSorted(cmp: (Item, Item) -> int, isDir: bool, s: seq<Item>)
    requires SortedBy(cmp, s)
    ensures SortedBy(cmp, Block(isDir, s))
    decreases |s|
  {
    if s != [] {
      var init, last := s[..|s| - 1], s[|s| - 1];
      BlockSorted(cmp, isDir, init);
      BlockShape(isDir, init);
      var block := Block(isDir, init);
      forall i | 0 <= i < |block| ensures cmp(block[i], last) <= 0 {
        assert block[i] in block && block[i] in init;
        var j :| 0 <= j < |init| && init[j] == block[i];
        assert s[j] == init[j];
      }
    }
  }

  /** Distinct keys within each block: no two positions hold items of the same kind with keys that tie. */
  predicate DistinctKeys(l: Locale, field: Field, items: seq<Item>) {
    forall i, j :: 0 <= i < j < |items| && items[i].isDir == items[j].isDir ==>
      KeyLess(KeyOf(l, field, items[i]), KeyOf(l, field, items[j]))
        || KeyLess(KeyOf(l, field, items[j]), KeyOf(l, field, items[i]))
  }

  function Turned(config: SortConfig): SortConfig {
    config.(direction := if config.direction.Asc? then Desc else Asc)
  }

  lemma DirectionsMirror(l: Locale, config: SortConfig, a: Item, b: Item)
    requires a.isDir == b.isDir
    ensures Compare(l, Some(Turned(config)), a, b) == Compare(l, Some(config), b, a)
  {
    KeyOrder(KeyOf(l, config.field, a), KeyOf(l, config.field, b), KeyOf(l, config.field, a));
  }

  /** With distinct keys an item ties with itself only. */
  lemma {:induction false} OneTie(l: Locale, config: SortConfig, s: seq<Item>, x: Item)
    requires multiset(s)[x] == 1
    requires forall y :: y in s && Compare(l, Some(config), x, y) == 0 ==> y == x
    requires Compare(l, Some(config), x, x) == 0
    ensures Ties(Comparator(l, Some(config)), x, s) == [x]
    decreases |s|
  {
    var cmp := Comparator(l, Some(config));
    if s != [] {
      var init, last := s[..|s| - 1], s[|s| - 1];
      assert s == init + [last];
      assert last in s;
      if last == x {
        assert multiset(init)[x] == 0;
        assert x !in init by { assert x in init ==> x in multiset(init); }
        NoTies(cmp, x, init);
      } else {
        assert multiset(init)[x] == 1;
        OneTie(l, config, init, x);
      }
    }
  }

  lemma DistinctKeysTies(l: Locale, config: SortConfig, items: seq<Item>, s: seq<Item>, x: Item)
    requires DistinctKeys(l, config.field, items) && multiset(s) == multiset(items) && x in items
    ensures Ties(Comparator(l, Some(config)), x, s) == [x]
  {
    SameElements(s, items);
    KeyOrder(KeyOf(l, config.field, x), KeyOf(l, config.field, x), KeyOf(l, config.field, x));
    var i :| 0 <= i < |items| && items[i] == x;
    forall j | 0 <= j < |items| && j != i ensures Compare(l, Some(config), x, items[j]) != 0 && items[j] != x {
      assert j < i || i < j;
      KeyOrder(KeyOf(l, config.field, items[j]), KeyOf(l, config.field, x), KeyOf(l, config.field, x));
    }
    CountOne(items, i);
    forall y | y in s && Compare(l, Some(config), x, y) == 0 ensures y == x {
      var j :| 0 <= j < |items| && items[j] == y;
    }
    OneTie(l, config, s, x);
  }

  lemma CountOne(items: seq<Item>, i: nat)
    requires i < |items| && forall j :: 0 <= j < |items| && j != i ==> items[j] != items[i]
    ensures multiset(items)[items[i]] == 1
  {
    var x := items[i];
    assert items == items[..i] + [x] + items[i + 1..];
    assert x !in items[..i] && x !in items[i + 1..];
    assert multiset(items) == multiset(items[..i]) + multiset{x} + multiset(items[i + 1..]);
    assert multiset(items[..i])[x] == 0 && multiset(items[i + 1..])[x] == 0;
  }

  /** The rows with each block turned round. */
  function Mirror(rows: seq<Item>): seq<Item> {
    Reversed(Block(true, rows)) + Reversed(Block(false, rows))
  }

  lemma ReversedBlockShape(isDir: bool, rows: seq<Item>)
    ensures var block, reversed := Block(isDir, rows), Reversed(Block(isDir, rows));
            && |reversed| == |block|
            && forall i :: 0 <= i < |reversed| ==> reversed[i] == block[|block| - 1 - i] && reversed[i].isDir == isDir
  {
    var block := Block(isDir, rows);
    BlockShape(isDir, rows);
    if block == [] {
      assert Reversed(block) == [];
    } else {
      ReversedAt(block, 0);
    }
    forall i | 0 <= i < |block|
        ensures Reversed(block)[i] == block[|block| - 1 - i] && block[|block| - 1 - i].isDir == isDir {
      ReversedAt(block, i);
      assert block[|block| - 1 - i] in block;
    }
  }

  lemma ReversedBlockSorted(l: Locale, config: SortConfig, isDir: bool, rows: seq<Item>)
    requires SortedBy(Comparator(l, Some(config)), rows)
    ensures SortedBy(Comparator(l, Some(Turned(config))), Reversed(Block(isDir, rows)))
  {
    var block := Block(isDir, rows);
    var reversed := Reversed(block);
    ReversedBlockShape(isDir, rows);
    BlockSorted(Comparator(l, Some(config)), isDir, rows);
    forall i, j | 0 <= i < j < |reversed| ensures Compare(l, Some(Turned(config)), reversed[i], reversed[j]) <= 0 {
      DirectionsMirror(l, config, reversed[i], reversed[j]);
      assert Comparator(l, Some(config))(block[|block| - 1 - j], block[|block| - 1 - i]) <= 0;
    }
  }

  /** On distinct keys, turning the direction reverses the folders and reverses the files. */
  lemma TurningMirrors(l: Locale, config: SortConfig, items: seq<Item>)
    requires DistinctKeys(l, config.field, items) && TotalPreorder(Comparator(l, Some(config)), Elements(items))
    ensures SortItems(l, Some(Turned(config)), items) == Mirror(SortItems(l, Some(config), items))
  {
    var turned := Turned(config);
    ComparatorIsOrder(l, Some(config), items);
    ComparatorIsOrder(l, Some(turned), items);
    SortIsStable(Comparator(l, Some(config)), items);
    SortIsStable(Comparator(l, Some(turned)), items);
    var rows, other := SortItems(l, Some(config), items), SortItems(l, Some(turned), items);
    var mirror := Mirror(rows);
    MirrorSorted(l, config, rows);
    SameElements(other, items);
    forall x | x in Elements(items)
        ensures Ties(Comparator(l, Some(turned)), x, other) == Ties(Comparator(l, Some(turned)), x, mirror) {
      DistinctKeysTies(l, turned, items, other, x);
      DistinctKeysTies(l, turned, items, mirror, x);
    }
    StableSortUnique(Comparator(l, Some(turned)), other, mirror, Elements(items));
  }

  /** So one more click on the column clicked last turns the folders and the files of the table round. */
  lemma ClickAgainMirrors(l: Locale, clicks: seq<Field>, items: seq<Item>)
    requires clicks != [] && DistinctKeys(l, clicks[|clicks| - 1], items)
    requires TotalPreorder(Comparator(l, Clicked(clicks)), Elements(items))
    ensures SortItems(l, Clicked(clicks + [clicks[|clicks| - 1]]), items)
        == Mirror(SortItems(l, Clicked(clicks), items))
  {
    var again := clicks + [clicks[|clicks| - 1]];
    assert again[..|again| - 1] == clicks;
    assert Clicked(again) == Some(Turned(Clicked(clicks).value));
    TurningMirrors(l, Clicked(clicks).value, items);
  }

  lemma MirrorSorted(l: Locale, config: SortConfig, rows: seq<Item>)
    requires SortedBy(Comparator(l, Some(config)), rows)
    ensures SortedBy(Comparator(l, Some(Turned(config))), Mirror(rows))
    ensures multiset(Mirror(rows)) == multiset(rows)
  {
    ReversedBlockShape(true, rows);
    ReversedBlockShape(false, rows);
    ReversedBlockSorted(l, config, true, rows);
    ReversedBlockSorted(l, config, false, rows);
    BlocksSplit(rows);
    ReversedSame(Block(true, rows));
    ReversedSame(Block(false, rows));
  }
}
