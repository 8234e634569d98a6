/**
 The order of the rows of a file list: lines 384-473 of src/app_shell/pane_managed_list.cpp. How
 two names or identities compare is the system's business: it comes in as functions that are only
 required to be consistent with themselves.
 */
module RowOrder {
  import opened Wtf8
  import StableOrder

  // ----- Comparisons

  /** Negative, zero or positive, as strings are compared. */
  type Compare<!T> = (T, T) -> int

  /** The comparison of b with a is the opposite of that of a with b, and "not after" is transitive. */
  ghost predicate Consistent<T(!new)>(c: Compare<T>) {
    && (forall a, b :: c(a, b) < 0 <==> c(b, a) > 0)
    && (forall a, b, d :: c(a, b) <= 0 && c(b, d) <= 0 ==> c(a, d) <= 0)
  }

  /** Consistent among values the first comparison finds equal. */
  ghost predicate ConsistentWithin<T(!new)>(first: Compare<T>, c: Compare<T>) {
    && (forall a, b :: first(a, b) == 0 ==> (c(a, b) < 0 <==> c(b, a) > 0))
    && (forall a, b, d :: first(a, b) == 0 && first(b, d) == 0 && c(a, b) <= 0 && c(b, d) <= 0 ==> c(a, d) <= 0)
  }

  function Then<T>(first: Compare<T>, second: Compare<T>): Compare<T> {
    (a, b) => if first(a, b) != 0 then first(a, b) else second(a, b)
  }

  /** Deciding by a second comparison where the first finds no difference is consistent. */
  lemma ThenConsistent<T(!new)>(first: Compare<T>, second: Compare<T>)
    requires Consistent(first) && ConsistentWithin(first, second)
    ensures Consistent(Then(first, second))
  {
    var c := Then(first, second);
    forall a, b, d | c(a, b) <= 0 && c(b, d) <= 0 ensures c(a, d) <= 0 {
      assert first(a, b) <= 0 && first(b, d) <= 0 && first(a, d) <= 0;
      if first(a, d) == 0 {
        SqueezedEqual(first, a, b, d);
      }
    }
    forall a, b ensures c(a, b) < 0 <==> c(b, a) > 0 {
      assert first(a, b) < 0 <==> first(b, a) > 0;
      assert first(b, a) < 0 <==> first(a, b) > 0;
    }
  }

  lemma SqueezedEqual<T(!new)>(c: Compare<T>, a: T, b: T, d: T)
    requires Consistent(c) && c(a, b) <= 0 && c(b, d) <= 0 && c(a, d) == 0
    ensures c(a, b) == 0 && c(b, d) == 0
  {
    assert c(d, a) <= 0;
    assert c(b, a) <= 0 && c(d, b) <= 0;
  }

  /** A comparison of rows by a key that compares consistently. */
  function By<T, K>(key: T -> K, c: Compare<K>): Compare<T> {
    (a, b) => c(key(a), key(b))
  }

  lemma ByAt<T, K>(key: T -> K, c: Compare<K>, a: T, b: T)
    ensures By(key, c)(a, b) == c(key(a), key(b))
  {
  }

  lemma ByConsistent<T(!new), K(!new)>(key: T -> K, c: Compare<K>)
    requires Consistent(c)
    ensures Consistent(By(key, c))
  {
  }

  function CompareNumbers(a: int, b: int): int { if a < b then -1 else if a > b then 1 else 0 }
  function CompareReals(a: real, b: real): int { if a < b then -1 else if a > b then 1 else 0 }

  // ----- Rows

  datatype Identity = Identity(key: WString, shellItem: bool)

  /** managed_list::PropertyValue: only a value that is there has content. */
  datatype Property = Missing | Text(text: WString) | Number(number: real)

  datatype Row = Row(
    name: WString, bytes: nat, directory: bool, modified: nat, properties: (Property, Property, Property),
    identity: Identity, newFolderOrder: nat)

  datatype SortProperty = ByName | BySize | ByDate

  /** The system's comparisons: StrCmpLogicalW, CompareStringOrdinal with and without case, and the
      order of identities. */
  datatype System = System(
    natural: Compare<WString>, folded: Compare<WString>, ordinal: Compare<WString>, identity: Compare<Identity>)
  {
    ghost predicate Sound() {
      && Consistent(natural) && Consistent(folded) && Consistent(ordinal) && Consistent(identity)
      && forall a, b :: identity(a, b) == 0 ==> a == b
    }

    /** compare_names(). */
    function Names(a: WString, b: WString): int {
      if folded(a, b) != 0 then folded(a, b) else ordinal(a, b)
    }
  }

  function PropertyOf(row: Row, slot: int): Property {
    if slot == 0 then row.properties.0 else if slot == 1 then row.properties.1 else row.properties.2
  }

  /** The end of both comparisons: what decides between rows with equal sort keys. */
  predicate TieLess(sys: System, left: Row, right: Row) {
    var names := sys.Names(left.name, right.name);
    if names != 0 then names < 0
    else if left.bytes != right.bytes then left.bytes < right.bytes
    else if left.modified != right.modified then left.modified < right.modified
    else sys.identity(left.identity, right.identity) < 0
  }

  /** The comparison in sort_managed_list_rows(). */
  predicate RowLess(sys: System, property: SortProperty, ascending: bool, left: Row, right: Row) {
    if left.newFolderOrder != right.newFolderOrder then left.newFolderOrder < right.newFolderOrder
    else if left.directory != right.directory then if ascending then left.directory else right.directory
    else
      var leftEmpty := IsEmpty(property, left);
      var rightEmpty := IsEmpty(property, right);
      var primary :=
        if property.ByName? then sys.natural(left.name, right.name)
        else if leftEmpty || rightEmpty then 0
        else if property.BySize? then CompareNumbers(left.bytes, right.bytes)
        else CompareNumbers(left.modified, right.modified);
      if leftEmpty != rightEmpty then !leftEmpty
      else if primary != 0 then if ascending then primary < 0 else primary > 0
      else TieLess(sys, left, right)
  }

  /** Rows without the key of the sort come last, in either direction. */
  predicate IsEmpty(property: SortProperty, row: Row) {
    match property
    case ByName => false
    case BySize => row.directory
    case ByDate => row.modified == 0
  }

  /** property_row_less(), for one of the three property slots. */
  predicate PropertyRowLess(sys: System, slot: int, ascending: bool, left: Row, right: Row) {
    if left.newFolderOrder != right.newFolderOrder then left.newFolderOrder < right.newFolderOrder
    else if left.directory != right.directory then if ascending then left.directory else right.directory
    else
      var a, b := PropertyOf(left, slot), PropertyOf(right, slot);
      if a.Missing? != b.Missing? then !a.Missing?
      else
        var primary := PropertyCompare(sys, a, b);
        if primary != 0 then if ascending then primary < 0 else primary > 0
        else TieLess(sys, left, right)
  }

  /** Numbers come before texts. */
  function PropertyCompare(sys: System, a: Property, b: Property): int {
    if a.Missing? || b.Missing? then 0
    else if a.Number? != b.Number? then if a.Number? then -1 else 1
    else if a.Number? then CompareReals(a.number, b.number)
    else sys.folded(a.text, b.text)
  }

  // ----- Both are lexicographic

  function Directed(ascending: bool, c: int): int { if ascending then c else -c }

  function FolderOrder(): Compare<Row> {
    By(FolderOrderOf, CompareNumbers)
  }

  function Grouping(ascending: bool): Compare<Row> {
    (a: Row, b: Row) => Directed(ascending, if a.directory == b.directory then 0 else if a.directory then -1 else 1)
  }

  function Emptiness(empty: Row -> bool): Compare<Row> {
    (a: Row, b: Row) => if empty(a) == empty(b) then 0 else if empty(a) then 1 else -1
  }

  /** Where two rows both have the key. */
  function Primary(empty: Row -> bool, key: Compare<Row>, ascending: bool): Compare<Row> {
    (a: Row, b: Row) => if empty(a) || empty(b) then 0 else Directed(ascending, key(a, b))
  }

  function Ties(sys: System): Compare<Row> {
    Then(ByFolded(sys), Then(ByOrdinal(sys), Then(ByBytes(), Then(ByModified(), ByIdentity(sys)))))
  }

  function NameOf(row: Row): WString { row.name }
  function BytesOf(row: Row): int { row.bytes }
  function ModifiedOf(row: Row): int { row.modified }
  function IdentityOf(row: Row): Identity { row.identity }
  function FolderOrderOf(row: Row): int { row.newFolderOrder }

  function ByNatural(sys: System): Compare<Row> { By(NameOf, sys.natural) }
  function ByFolded(sys: System): Compare<Row> { By(NameOf, sys.folded) }
  function ByOrdinal(sys: System): Compare<Row> { By(NameOf, sys.ordinal) }
  function ByBytes(): Compare<Row> { By(BytesOf, CompareNumbers) }
  function ByModified(): Compare<Row> { By(ModifiedOf, CompareNumbers) }
  function ByIdentity(sys: System): Compare<Row> { By(IdentityOf, sys.identity) }

  function RowCompare(sys: System, empty: Row -> bool, key: Compare<Row>, ascending: bool): Compare<Row> {
    Then(FolderOrder(),
      Then(Grouping(ascending), Then(Emptiness(empty), Then(Primary(empty, key, ascending), Ties(sys)))))
  }

  lemma WithinAny<T(!new)>(first: Compare<T>, c: Compare<T>)
    requires Consistent(c)
    ensures ConsistentWithin(first, c)
  {
  }

  lemma ThenBoth<T(!new)>(first: Compare<T>, second: Compare<T>)
    requires Consistent(first) && Consistent(second)
    ensures Consistent(Then(first, second))
  {
    WithinAny(first, second);
    ThenConsistent(first, second);
  }

  lemma ThenAt<T>(first: Compare<T>, second: Compare<T>, a: T, b: T)
    ensures Then(first, second)(a, b) == if first(a, b) != 0 then first(a, b) else second(a, b)
  {
  }

  /** The comparisons by one member each. */
  lemma MembersConsistent(sys: System, ascending: bool)
    requires sys.Sound()
    ensures Consistent(ByNatural(sys)) && Consistent(ByFolded(sys)) && Consistent(ByOrdinal(sys))
    ensures Consistent(ByIdentity(sys)) && Consistent(ByBytes()) && Consistent(ByModified())
    ensures Consistent(FolderOrder()) && Consistent(Grouping(ascending))
  {
    NumbersConsistent();
    GroupingConsistent(ascending);
    hide Consistent, By, Grouping, CompareNumbers;
    ByConsistent(NameOf, sys.natural);
    ByConsistent(NameOf, sys.folded);
    ByConsistent(NameOf, sys.ordinal);
    ByConsistent(IdentityOf, sys.identity);
    ByConsistent(BytesOf, CompareNumbers);
    ByConsistent(ModifiedOf, CompareNumbers);
    ByConsistent(FolderOrderOf, CompareNumbers);
  }

  lemma NumbersConsistent()
    ensures Consistent(CompareNumbers)
  {
  }

  lemma GroupingConsistent(ascending: bool)
    ensures Consistent(Grouping(ascending))
  {
    var c := Grouping(ascending);
    forall a: Row, b: Row
      ensures c(a, b) == if a.directory == b.directory then 0 else if a.directory == ascending then -1 else 1
    {
    }
  }

  lemma TiesConsistent(sys: System)
    requires sys.Sound()
    ensures Consistent(Ties(sys))
  {
    hide Consistent, Then, ByFolded, ByOrdinal, ByBytes, ByModified, ByIdentity;
    MembersConsistent(sys, true);
    ThenBoth(ByModified(), ByIdentity(sys));
    ThenBoth(ByBytes(), Then(ByModified(), ByIdentity(sys)));
    ThenBoth(ByOrdinal(sys), Then(ByBytes(), Then(ByModified(), ByIdentity(sys))));
    ThenBoth(ByFolded(sys), Then(ByOrdinal(sys), Then(ByBytes(), Then(ByModified(), ByIdentity(sys)))));
  }

  function Directions(key: Compare<Row>, ascending: bool): Compare<Row> {
    (a: Row, b: Row) => Directed(ascending, key(a, b))
  }

  lemma DirectionsConsistent(key: Compare<Row>, ascending: bool)
    requires Consistent(key)
    ensures Consistent(Directions(key, ascending))
  {
  }

  /** Among rows without the key only the ties count; among rows with it, the key and then the ties. */
  lemma KeyWithinEmptiness(sys: System, empty: Row -> bool, key: Compare<Row>, ascending: bool)
    requires sys.Sound() && Consistent(key)
    ensures ConsistentWithin(Emptiness(empty), Then(Primary(empty, key, ascending), Ties(sys)))
  {
    TiesConsistent(sys);
    DirectionsConsistent(key, ascending);
    ThenBoth(Directions(key, ascending), Ties(sys));
    var ties, full := Ties(sys), Then(Directions(key, ascending), Ties(sys));
    var keyed := Then(Primary(empty, key, ascending), ties);
    hide Ties, Consistent;
    forall a: Row, b: Row | empty(a) == empty(b) ensures keyed(a, b) == if empty(a) then ties(a, b) else full(a, b) {
      ThenAt(Primary(empty, key, ascending), ties, a, b);
      ThenAt(Directions(key, ascending), ties, a, b);
    }
    SplitWithin(empty, ties, full, keyed);
  }

  lemma SplitWithin(empty: Row -> bool, ties: Compare<Row>, full: Compare<Row>, keyed: Compare<Row>)
    requires Consistent(ties) && Consistent(full)
    requires forall a: Row, b: Row | empty(a) == empty(b) :: keyed(a, b) == if empty(a) then ties(a, b) else full(a, b)
    ensures ConsistentWithin(Emptiness(empty), keyed)
  {
    forall a: Row, b: Row ensures Emptiness(empty)(a, b) == 0 <==> empty(a) == empty(b) {
    }
  }

  /** The whole comparison is consistent if the key's is. */
  lemma RowCompareConsistent(sys: System, empty: Row -> bool, key: Compare<Row>, ascending: bool)
    requires sys.Sound() && Consistent(key)
    ensures Consistent(RowCompare(sys, empty, key, ascending))
  {
    hide Consistent, ConsistentWithin, Then, Primary, Ties, Emptiness, Grouping, FolderOrder;
    var keyed := Then(Primary(empty, key, ascending), Ties(sys));
    var rest := Then(Emptiness(empty), keyed);
    KeyWithinEmptiness(sys, empty, key, ascending);
    EmptinessConsistent(empty);
    ThenConsistent(Emptiness(empty), keyed);
    MembersConsistent(sys, ascending);
    ThenBoth(Grouping(ascending), rest);
    ThenBoth(FolderOrder(), Then(Grouping(ascending), rest));
  }

  lemma EmptinessConsistent(empty: Row -> bool)
    ensures Consistent(Emptiness(empty))
  {
  }

  // ----- Both comparisons are strict weak orders

  /** The key of the comparison in sort_managed_list_rows(). */
  function KeyCompare(sys: System, property: SortProperty): Compare<Row> {
    match property
    case ByName => ByNatural(sys)
    case BySize => ByBytes()
    case ByDate => ByModified()
  }

  function PropertyKey(sys: System, slot: int): Compare<Row> {
    (a: Row, b: Row) => KindCompare(sys, PropertyOf(a, slot), PropertyOf(b, slot))
  }

  /** PropertyCompare, with missing values before all others instead of equal to all. */
  function KindCompare(sys: System, a: Property, b: Property): int {
    if a.Missing? || b.Missing? then (if a == b then 0 else if a.Missing? then -1 else 1)
    else PropertyCompare(sys, a, b)
  }

  lemma KeyConsistent(sys: System, property: SortProperty)
    requires sys.Sound()
    ensures Consistent(KeyCompare(sys, property))
  {
    hide Consistent;
    MembersConsistent(sys, true);
  }

  lemma PropertyKeyConsistent(sys: System, slot: int)
    requires sys.Sound()
    ensures Consistent(PropertyKey(sys, slot))
  {
    assert forall p: Property, q: Property :: KindCompare(sys, p, q) < 0 <==> KindCompare(sys, q, p) > 0;
  }

  function EmptyFor(property: SortProperty): Row -> bool { row => IsEmpty(property, row) }

  function MissingAt(slot: int): Row -> bool { row => PropertyOf(row, slot).Missing? }

  lemma PrimaryAt(empty: Row -> bool, key: Compare<Row>, ascending: bool, a: Row, b: Row)
    ensures Primary(empty, key, ascending)(a, b)
      == if empty(a) || empty(b) then 0 else if ascending then key(a, b) else -key(a, b)
  {
  }

  lemma GroupingAt(empty: Row -> bool, ascending: bool, a: Row, b: Row)
    ensures Grouping(ascending)(a, b)
      == if a.directory == b.directory then 0 else if a.directory == ascending then -1 else 1
    ensures Emptiness(empty)(a, b) == if empty(a) == empty(b) then 0 else if empty(a) then 1 else -1
  {
  }

  lemma KeyAt(sys: System, property: SortProperty, a: Row, b: Row)
    ensures KeyCompare(sys, property)(a, b) == match property
                                               case ByName => sys.natural(a.name, b.name)
                                               case BySize => CompareNumbers(a.bytes, b.bytes)
                                               case ByDate => CompareNumbers(a.modified, b.modified)
  {
    ByAt(NameOf, sys.natural, a, b);
    ByAt(BytesOf, CompareNumbers, a, b);
    ByAt(ModifiedOf, CompareNumbers, a, b);
  }

  /** The first level that finds a difference decides. */
  lemma RowCompareAt(sys: System, empty: Row -> bool, key: Compare<Row>, ascending: bool, a: Row, b: Row)
    ensures var c := RowCompare(sys, empty, key, ascending)(a, b);
      if FolderOrder()(a, b) != 0 then c == FolderOrder()(a, b)
      else if Grouping(ascending)(a, b) != 0 then c == Grouping(ascending)(a, b)
      else if Emptiness(empty)(a, b) != 0 then c == Emptiness(empty)(a, b)
      else if Primary(empty, key, ascending)(a, b) != 0 then c == Primary(empty, key, ascending)(a, b)
      else c == Ties(sys)(a, b)
    ensures FolderOrder()(a, b) == CompareNumbers(a.newFolderOrder, b.newFolderOrder)
  {
    ByAt(FolderOrderOf, CompareNumbers, a, b);
    assert FolderOrder()(a, b) == CompareNumbers(a.newFolderOrder, b.newFolderOrder);
    hide Then, FolderOrder, Grouping, Emptiness, Primary, Ties;
    var keyed := Then(Primary(empty, key, ascending), Ties(sys));
    var rest := Then(Emptiness(empty), keyed);
    ThenAt(Primary(empty, key, ascending), Ties(sys), a, b);
    ThenAt(Emptiness(empty), keyed, a, b);
    ThenAt(Grouping(ascending), rest, a, b);
    ThenAt(FolderOrder(), Then(Grouping(ascending), rest), a, b);
  }

  lemma TieLessIs(sys: System, a: Row, b: Row)
    ensures TieLess(sys, a, b) <==> Ties(sys)(a, b) < 0
    ensures sys.Sound() && a.identity != b.identity ==> Ties(sys)(a, b) != 0
  {
    var dates := Then(ByModified(), ByIdentity(sys));
    var bytes := Then(ByBytes(), dates);
    var exact := Then(ByOrdinal(sys), bytes);
    hide Then;
    ThenAt(ByFolded(sys), exact, a, b);
    ThenAt(ByOrdinal(sys), bytes, a, b);
    ThenAt(ByBytes(), dates, a, b);
    ThenAt(ByModified(), ByIdentity(sys), a, b);
    ByAt(NameOf, sys.folded, a, b);
    ByAt(NameOf, sys.ordinal, a, b);
    ByAt(BytesOf, CompareNumbers, a, b);
    ByAt(ModifiedOf, CompareNumbers, a, b);
    ByAt(IdentityOf, sys.identity, a, b);
  }

  lemma RowLessIs(sys: System, property: SortProperty, ascending: bool, a: Row, b: Row)
    ensures RowLess(sys, property, ascending, a, b)
      <==> RowCompare(sys, EmptyFor(property), KeyCompare(sys, property), ascending)(a, b) < 0
  {
    RowCompareAt(sys, EmptyFor(property), KeyCompare(sys, property), ascending, a, b);
    KeyAt(sys, property, a, b);
    TieLessIs(sys, a, b);
    hide Ties, TieLess, RowCompare;
  }

  lemma PropertyRowLessIs(sys: System, slot: int, ascending: bool, a: Row, b: Row)
    ensures PropertyRowLess(sys, slot, ascending, a, b)
      <==> RowCompare(sys, MissingAt(slot), PropertyKey(sys, slot), ascending)(a, b) < 0
  {
    var c := PropertyKey(sys, slot);
    assert c(a, b) == KindCompare(sys, PropertyOf(a, slot), PropertyOf(b, slot));
    assert MissingAt(slot)(a) == PropertyOf(a, slot).Missing? && MissingAt(slot)(b) == PropertyOf(b, slot).Missing?;
    PrimaryAt(MissingAt(slot), c, ascending, a, b);
    GroupingAt(MissingAt(slot), ascending, a, b);
    RowCompareAt(sys, MissingAt(slot), PropertyKey(sys, slot), ascending, a, b);
    TieLessIs(sys, a, b);
    hide Ties, TieLess, RowCompare;
  }

  /** A strict weak order: not both ways round, and whatever lies between two ordered rows is ordered
      with one of them. */
  ghost predicate IsStrictWeak(less: (Row, Row) -> bool) {
    && (forall a, b :: less(a, b) ==> !less(b, a))
    && (forall a, b, c :: less(a, c) ==> less(a, b) || less(b, c))
  }

  /** Different identities are always ordered. */
  ghost predicate OrdersIdentities(less: (Row, Row) -> bool) {
    forall a: Row, b: Row :: a.identity != b.identity ==> less(a, b) || less(b, a)
  }

  lemma ComparedStrictWeak(less: (Row, Row) -> bool, c: Compare<Row>)
    requires Consistent(c) && forall a, b :: less(a, b) <==> c(a, b) < 0
    ensures IsStrictWeak(less)
  {
    forall a, b, d ensures less(a, d) ==> less(a, b) || less(b, d) {
      assert c(d, b) <= 0 && c(b, a) <= 0 ==> c(d, a) <= 0;
      assert !less(a, b) ==> c(b, a) <= 0;
      assert !less(b, d) ==> c(d, b) <= 0;
    }
  }

  lemma ComparedOrdersIdentities(sys: System, empty: Row -> bool, key: Compare<Row>, ascending: bool, a: Row, b: Row)
    requires sys.Sound() && a.identity != b.identity
    ensures RowCompare(sys, empty, key, ascending)(a, b) != 0
  {
    RowCompareAt(sys, empty, key, ascending, a, b);
    TieLessIs(sys, a, b);
    hide RowCompare, Ties;
  }

  /** The comparison by name, size or date, in either direction. */
  lemma RowLessStrictWeak(sys: System, property: SortProperty, ascending: bool)
    requires sys.Sound()
    ensures var less := (a, b) => RowLess(sys, property, ascending, a, b);
      IsStrictWeak(less) && OrdersIdentities(less)
  {
    hide RowLess, RowCompare;
    var less := (a, b) => RowLess(sys, property, ascending, a, b);
    var c := RowCompare(sys, EmptyFor(property), KeyCompare(sys, property), ascending);
    KeyConsistent(sys, property);
    RowCompareConsistent(sys, EmptyFor(property), KeyCompare(sys, property), ascending);
    forall a, b ensures less(a, b) <==> c(a, b) < 0 {
      RowLessIs(sys, property, ascending, a, b);
    }
    ComparedStrictWeak(less, c);
    forall a: Row, b: Row | a.identity != b.identity ensures c(a, b) != 0 {
      ComparedOrdersIdentities(sys, EmptyFor(property), KeyCompare(sys, property), ascending, a, b);
    }
  }

  /** The comparison by a shell property, in either direction. */
  lemma PropertyRowLessStrictWeak(sys: System, slot: int, ascending: bool)
    requires sys.Sound()
    ensures var less := (a, b) => PropertyRowLess(sys, slot, ascending, a, b);
      IsStrictWeak(less) && OrdersIdentities(less)
  {
    hide PropertyRowLess, RowCompare;
    var less := (a, b) => PropertyRowLess(sys, slot, ascending, a, b);
    var c := RowCompare(sys, MissingAt(slot), PropertyKey(sys, slot), ascending);
    PropertyKeyConsistent(sys, slot);
    RowCompareConsistent(sys, MissingAt(slot), PropertyKey(sys, slot), ascending);
    forall a, b ensures less(a, b) <==> c(a, b) < 0 {
      PropertyRowLessIs(sys, slot, ascending, a, b);
    }
    ComparedStrictWeak(less, c);
    forall a: Row, b: Row | a.identity != b.identity ensures c(a, b) != 0 {
      ComparedOrdersIdentities(sys, MissingAt(slot), PropertyKey(sys, slot), ascending, a, b);
    }
  }

  /** So the cooperative merge sort may order the rows by their numbers with it. */
  lemma PropertyOrderUsable(sys: System, slot: int, ascending: bool, rows: seq<Row>, less: StableOrder.Less)
    requires sys.Sound()
    requires forall i, j | 0 <= i < |rows| && 0 <= j < |rows| ::
      less(i, j) == PropertyRowLess(sys, slot, ascending, rows[i], rows[j])
    ensures StableOrder.StrictWeakOrder(less, |rows|)
  {
    PropertyRowLessStrictWeak(sys, slot, ascending);
    var byRow := (a, b) => PropertyRowLess(sys, slot, ascending, a, b);
    hide PropertyRowLess;
    forall a: nat, b: nat, c: nat | a < |rows| && b < |rows| && c < |rows|
      ensures less(a, b) ==> !less(b, a)
      ensures less(a, c) ==> less(a, b) || less(b, c)
    {
      assert byRow(rows[a], rows[b]) ==> !byRow(rows[b], rows[a]);
      assert byRow(rows[a], rows[c]) ==> byRow(rows[a], rows[b]) || byRow(rows[b], rows[c]);
    }
  }

  // ----- The order that was asked for

  /** New folders last, in the order of their making; otherwise folders and files apart, folders first when
      ascending. */
  lemma GroupsFirst(sys: System, property: SortProperty, slot: int, ascending: bool, a: Row, b: Row)
    ensures a.newFolderOrder != b.newFolderOrder ==>
      && (RowLess(sys, property, ascending, a, b) <==> a.newFolderOrder < b.newFolderOrder)
      && (PropertyRowLess(sys, slot, ascending, a, b) <==> a.newFolderOrder < b.newFolderOrder)
    ensures a.newFolderOrder == b.newFolderOrder && a.directory != b.directory ==>
      && (RowLess(sys, property, ascending, a, b) <==> a.directory == ascending)
      && (PropertyRowLess(sys, slot, ascending, a, b) <==> a.directory == ascending)
  {
  }

  /** Rows that are kept together by their groups. */
  predicate Alike(a: Row, b: Row) {
    a.newFolderOrder == b.newFolderOrder && a.directory == b.directory
  }

  /** By name: as the system compares names, in the direction asked for. */
  lemma ByNameReads(sys: System, ascending: bool, a: Row, b: Row)
    requires Alike(a, b) && sys.natural(a.name, b.name) != 0
    ensures RowLess(sys, ByName, ascending, a, b) <==> (sys.natural(a.name, b.name) < 0) == ascending
  {
  }

  /** By size: files by their bytes; folders have no size, and theirs is not looked at. */
  lemma BySizeReads(sys: System, ascending: bool, a: Row, b: Row)
    requires Alike(a, b)
    ensures !a.directory && a.bytes != b.bytes ==>
      (RowLess(sys, BySize, ascending, a, b) <==> if ascending then a.bytes < b.bytes else a.bytes > b.bytes)
    ensures a.directory ==> (RowLess(sys, BySize, ascending, a, b) <==> Breaks(sys, a, b))
  {
  }

  /** By date: dated rows by their dates, and rows without one last in either direction. */
  lemma ByDateReads(sys: System, ascending: bool, a: Row, b: Row)
    requires Alike(a, b) && a.modified != b.modified
    ensures a.modified != 0 && b.modified != 0 ==>
      (RowLess(sys, ByDate, ascending, a, b)
       <==> if ascending then a.modified < b.modified else a.modified > b.modified)
    ensures a.modified == 0 || b.modified == 0 ==> (RowLess(sys, ByDate, ascending, a, b) <==> b.modified == 0)
  {
  }

  /** The rows have the same sort key. */
  predicate SameKey(sys: System, property: SortProperty, a: Row, b: Row) {
    match property
    case ByName => sys.natural(a.name, b.name) == 0
    case BySize => a.directory || a.bytes == b.bytes
    case ByDate => a.modified == b.modified
  }

  /** What decides between rows with the same key, in either direction: the name without case, the name, the bytes,
      the date, and in the end the identity. */
  predicate Breaks(sys: System, a: Row, b: Row) {
    || sys.folded(a.name, b.name) < 0
    || (sys.folded(a.name, b.name) == 0
        && (|| sys.ordinal(a.name, b.name) < 0
            || (sys.ordinal(a.name, b.name) == 0
                && (|| a.bytes < b.bytes
                    || (a.bytes == b.bytes
                        && (|| a.modified < b.modified
                            || (a.modified == b.modified && sys.identity(a.identity, b.identity) < 0)))))))
  }

  lemma TiesRead(sys: System, property: SortProperty, ascending: bool, a: Row, b: Row)
    requires Alike(a, b) && SameKey(sys, property, a, b)
    ensures RowLess(sys, property, ascending, a, b) <==> Breaks(sys, a, b)
  {
  }

  /** By a property: values that are missing last in either direction; of the others numbers before texts when
      ascending, numbers by their value, texts without case. */
  lemma PropertyReads(sys: System, slot: int, ascending: bool, a: Row, b: Row)
    requires Alike(a, b) && 0 <= slot < 3
    ensures var p := if slot == 0 then a.properties.0 else if slot == 1 then a.properties.1 else a.properties.2;
      var q := if slot == 0 then b.properties.0 else if slot == 1 then b.properties.1 else b.properties.2;
      match (p, q)
      case (Missing, Missing) => PropertyRowLess(sys, slot, ascending, a, b) <==> Breaks(sys, a, b)
      case (Missing, _) => !PropertyRowLess(sys, slot, ascending, a, b)
      case (_, Missing) => PropertyRowLess(sys, slot, ascending, a, b)
      case (Number(_), Text(_)) => PropertyRowLess(sys, slot, ascending, a, b) == ascending
      case (Text(_), Number(_)) => PropertyRowLess(sys, slot, ascending, a, b) != ascending
      case (Number(x), Number(y)) =>
        PropertyRowLess(sys, slot, ascending, a, b)
        <==> if x == y then Breaks(sys, a, b) else (x < y) == ascending
      case (Text(x), Text(y)) =>
        PropertyRowLess(sys, slot, ascending, a, b)
        <==> if sys.folded(x, y) == 0 then Breaks(sys, a, b) else (sys.folded(x, y) < 0) == ascending
  {
  }
}
