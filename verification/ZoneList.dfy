/** What the zone builder stores, as a list of names with their records. */
module ZoneModel {
  import opened Wrappers

  /** One resource record: the text `ttl type`, and the value. */
  datatype Record = Record(head: string, value: string)

  type Contents = seq<(string, seq<Record>)>

  /** One call of `putrr`. */
  datatype Call = Call(name: string, kind: string, ttl: string, value: string)

  function RecordOf(c: Call): Record { Record(c.ttl + " " + c.kind, c.value) }

  /** Calls with an empty name or an empty value do nothing. */
  predicate Effective(c: Call) { c.name != "" && c.value != "" }

  function IndexOf(z: Contents, name: string): (r: Option<nat>)
    ensures r.Some? ==> r.value < |z| && z[r.value].0 == name && forall j :: 0 <= j < r.value ==> z[j].0 != name
    ensures r.None? ==> forall j :: 0 <= j < |z| ==> z[j].0 != name
  {
    if z == [] then None
    else if z[0].0 == name then Some(0)
    else
      var rest := IndexOf(z[1..], name);
      if rest.None? then None else Some(rest.value + 1)
  }

  function WithRecord(records: seq<Record>, c: Call): seq<Record> {
    if c.kind == "SOA" then [RecordOf(c)] + records else records + [RecordOf(c)]
  }

  function Put(z: Contents, c: Call): Contents {
    if !Effective(c) then z
    else
      var i := IndexOf(z, c.name);
      if i.Some? then z[i.value := (c.name, WithRecord(z[i.value].1, c))]
      else if c.name == "@" then [(c.name, WithRecord([], c))] + z
      else z + [(c.name, WithRecord([], c))]
  }

  function PutAll(calls: seq<Call>): Contents {
    if calls == [] then [] else Put(PutAll(calls[..|calls| - 1]), calls[|calls| - 1])
  }

  // ----- the layout after any sequence of calls -----

  function Names(z: Contents): (names: seq<string>)
    ensures |names| == |z| && forall i :: 0 <= i < |z| ==> names[i] == z[i].0
  {
    seq(|z|, i requires 0 <= i < |z| => z[i].0)
  }

  predicate Arrived(calls: seq<Call>, name: string) {
    exists i :: 0 <= i < |calls| && Effective(calls[i]) && calls[i].name == name
  }

  /** The names other than `@`, in the order in which they first arrive. */
  function FirstArrivals(calls: seq<Call>): seq<string> {
    if calls == [] then []
    else
      var before, c := FirstArrivals(calls[..|calls| - 1]), calls[|calls| - 1];
      if Effective(c) && c.name != "@" && c.name !in before then before + [c.name] else before
  }

  /** The SOA records of a name, latest first. */
  function SoaRecords(calls: seq<Call>, name: string): seq<Record> {
    if calls == [] then []
    else
      var before, c := SoaRecords(calls[..|calls| - 1], name), calls[|calls| - 1];
      if Effective(c) && c.name == name && c.kind == "SOA" then [RecordOf(c)] + before else before
  }

  /** The other records of a name, in order of arrival. */
  function OtherRecords(calls: seq<Call>, name: string): seq<Record> {
    if calls == [] then []
    else
      var before, c := OtherRecords(calls[..|calls| - 1], name), calls[|calls| - 1];
      if Effective(c) && c.name == name && c.kind != "SOA" then before + [RecordOf(c)] else before
  }

  function Apex(calls: seq<Call>): seq<string> {
    if Arrived(calls, "@") then ["@"] else []
  }

  ghost predicate Layout(calls: seq<Call>, z: Contents) {
    && Names(z) == Apex(calls) + FirstArrivals(calls)
    && (forall i :: 0 <= i < |z| ==> z[i].1 == SoaRecords(calls, z[i].0) + OtherRecords(calls, z[i].0))
  }

  lemma {:induction false} ArrivalsAreNames(calls: seq<Call>, name: string)
    ensures name in FirstArrivals(calls) <==> name != "@" && Arrived(calls, name)
  {
    if calls != [] {
      var init, c := calls[..|calls| - 1], calls[|calls| - 1];
      ArrivalsAreNames(init, name);
      ArrivedStep(init, c, name);
      assert calls == init + [c];
    }
  }

  lemma {:induction false} ArrivedStep(init: seq<Call>, c: Call, name: string)
    ensures Arrived(init + [c], name) <==> Arrived(init, name) || (Effective(c) && c.name == name)
  {
    var calls := init + [c];
    if Arrived(init, name) {
      var i :| 0 <= i < |init| && Effective(init[i]) && init[i].name == name;
      assert calls[i] == init[i];
    }
    assert calls[|init|] == c;
    assert forall i :: 0 <= i < |init| ==> calls[i] == init[i];
  }

  lemma {:induction false} NoRecordsYet(calls: seq<Call>, name: string)
    requires !Arrived(calls, name)
    ensures SoaRecords(calls, name) == [] && OtherRecords(calls, name) == []
  {
    if calls != [] {
      var init, c := calls[..|calls| - 1], calls[|calls| - 1];
      assert calls == init + [c];
      ArrivedStep(init, c, name);
      NoRecordsYet(init, name);
    }
  }

  ghost predicate DistinctNames(z: Contents) {
    forall i, j :: 0 <= i < j < |z| ==> z[i].0 != z[j].0
  }

  /** Names and arrivals before the last call, when that call's name is already stored. */
  lemma {:induction false} KnownNameArrived(init: seq<Call>, c: Call, z: Contents, k: nat)
    requires Names(z) == Apex(init) + FirstArrivals(init)
    requires Effective(c) && k < |z| && z[k].0 == c.name
    ensures Apex(init + [c]) == Apex(init) && FirstArrivals(init + [c]) == FirstArrivals(init)
  {
    assert (init + [c])[..|init|] == init;
    assert Names(z)[k] == c.name;
    assert c.name in Apex(init) + FirstArrivals(init);
    ArrivedStep(init, c, "@");
    ArrivalsAreNames(init, "@");
  }

  lemma {:induction false} RecordsStep(init: seq<Call>, c: Call, name: string)
    requires Effective(c)
    ensures SoaRecords(init + [c], name) + OtherRecords(init + [c], name) ==
            if c.name == name then WithRecord(SoaRecords(init, name) + OtherRecords(init, name), c)
            else SoaRecords(init, name) + OtherRecords(init, name)
  {
    assert (init + [c])[..|init|] == init;
    var soa, others := SoaRecords(init, name), OtherRecords(init, name);
    assert ([RecordOf(c)] + soa) + others == [RecordOf(c)] + (soa + others);
    assert soa + (others + [RecordOf(c)]) == (soa + others) + [RecordOf(c)];
  }

  lemma {:induction false} LayoutStepKnown(init: seq<Call>, c: Call, z: Contents)
    requires Layout(init, z) && Effective(c) && IndexOf(z, c.name).Some? && DistinctNames(z)
    ensures Layout(init + [c], Put(z, c))
  {
    var k := IndexOf(z, c.name).value;
    var after := Put(z, c);
    assert Names(after) == Names(z);
    KnownNameArrived(init, c, z, k);
    forall i | 0 <= i < |after|
      ensures after[i].1 == SoaRecords(init + [c], after[i].0) + OtherRecords(init + [c], after[i].0)
    {
      RecordsStep(init, c, after[i].0);
      assert i != k ==> z[i].0 != z[k].0;
    }
  }

  lemma {:induction false} NewNameArrives(init: seq<Call>, c: Call, z: Contents)
    requires Names(z) == Apex(init) + FirstArrivals(init)
    requires Effective(c) && IndexOf(z, c.name).None?
    ensures !Arrived(init, c.name)
    ensures Apex(init + [c]) + FirstArrivals(init + [c]) ==
            if c.name == "@" then ["@"] + Names(z) else Names(z) + [c.name]
  {
    assert (init + [c])[..|init|] == init;
    assert c.name !in Names(z);
    assert c.name !in Apex(init) && c.name !in FirstArrivals(init);
    ArrivalsAreNames(init, c.name);
    ArrivedStep(init, c, "@");
    if c.name == "@" {
      assert Apex(init) == [] && Names(z) == FirstArrivals(init);
    }
  }

  lemma {:induction false} NewNameStored(z: Contents, c: Call)
    requires Effective(c) && IndexOf(z, c.name).None?
    ensures Names(Put(z, c)) == if c.name == "@" then ["@"] + Names(z) else Names(z) + [c.name]
    ensures forall i :: 0 <= i < |Put(z, c)| ==>
              Put(z, c)[i] == (c.name, WithRecord([], c)) || (Put(z, c)[i] in z && Put(z, c)[i].0 != c.name)
  {
  }

  lemma {:induction false} RecordsOfNewName(init: seq<Call>, c: Call, z: Contents, entry: (string, seq<Record>))
    requires Layout(init, z) && Effective(c) && !Arrived(init, c.name)
    requires entry == (c.name, WithRecord([], c)) || (entry in z && entry.0 != c.name)
    ensures entry.1 == SoaRecords(init + [c], entry.0) + OtherRecords(init + [c], entry.0)
  {
    NoRecordsYet(init, c.name);
    RecordsStep(init, c, entry.0);
  }

  lemma {:induction false} LayoutStepNew(init: seq<Call>, c: Call, z: Contents)
    requires Layout(init, z) && Effective(c) && IndexOf(z, c.name).None?
    ensures Layout(init + [c], Put(z, c))
  {
    var after := Put(z, c);
    NewNameArrives(init, c, z);
    NewNameStored(z, c);
    forall i | 0 <= i < |after|
      ensures after[i].1 == SoaRecords(init + [c], after[i].0) + OtherRecords(init + [c], after[i].0)
    {
      RecordsOfNewName(init, c, z, after[i]);
    }
  }

  lemma {:induction false} DistinctStep(z: Contents, c: Call)
    requires DistinctNames(z)
    ensures DistinctNames(Put(z, c))
  {
  }

  lemma {:induction false} NamesAreDistinct(calls: seq<Call>)
    ensures DistinctNames(PutAll(calls))
  {
    if calls != [] {
      NamesAreDistinct(calls[..|calls| - 1]);
      DistinctStep(PutAll(calls[..|calls| - 1]), calls[|calls| - 1]);
    }
  }

  /**
   * After any sequence of calls: `@` comes first if it ever arrived, the other names follow in order of
   * first arrival, and each name holds its SOA records latest first, then the rest in order of arrival.
   */
  lemma {:induction false} ZoneLayout(calls: seq<Call>)
    ensures Layout(calls, PutAll(calls))
  {
    if calls != [] {
      var init, c := calls[..|calls| - 1], calls[|calls| - 1];
      assert calls == init + [c];
      var z := PutAll(init);
      ZoneLayout(init);
      NamesAreDistinct(init);
      if !Effective(c) {
        ArrivedStep(init, c, "@");
      } else if IndexOf(z, c.name).Some? {
        LayoutStepKnown(init, c, z);
      } else {
        LayoutStepNew(init, c, z);
      }
    }
  }

  function CountEffective(calls: seq<Call>): nat {
    if calls == [] then 0
    else CountEffective(calls[..|calls| - 1]) + if Effective(calls[|calls| - 1]) then 1 else 0
  }

  function CountRecords(z: Contents): nat {
    if z == [] then 0 else CountRecords(z[..|z| - 1]) + |z[|z| - 1].1|
  }

  lemma {:induction false} CountPrepend(e: (string, seq<Record>), z: Contents)
    ensures CountRecords([e] + z) == |e.1| + CountRecords(z)
  {
    if z == [] {
      assert [e] + z == [e] && [e][..0] == [];
    } else {
      CountPrepend(e, z[..|z| - 1]);
      assert ([e] + z)[..|z|] == [e] + z[..|z| - 1];
    }
  }

  lemma {:induction false} CountReplace(z: Contents, i: nat, e: (string, seq<Record>))
    requires i < |z| && |e.1| == |z[i].1| + 1
    ensures CountRecords(z[i := e]) == CountRecords(z) + 1
  {
    var last := |z| - 1;
    if i < last {
      CountReplace(z[..last], i, e);
      assert z[i := e][..last] == z[..last][i := e];
    } else {
      assert z[i := e][..last] == z[..last];
    }
  }

  /** No record is lost or duplicated: every call with a name and a value adds exactly one. */
  lemma {:induction false} EveryCallAddsOneRecord(calls: seq<Call>)
    ensures CountRecords(PutAll(calls)) == CountEffective(calls)
  {
    if calls != [] {
      var init, c := calls[..|calls| - 1], calls[|calls| - 1];
      EveryCallAddsOneRecord(init);
      var z := PutAll(init);
      if Effective(c) {
        var i := IndexOf(z, c.name);
        var added := (c.name, WithRecord([], c));
        if i.Some? {
          CountReplace(z, i.value, (c.name, WithRecord(z[i.value].1, c)));
        } else if c.name == "@" {
          CountPrepend(added, z);
        } else {
          assert (z + [added])[..|z|] == z;
        }
      }
    }
  }
}

/** The builder itself: a linked list of names, each with a linked list of records. */
module ZoneList {
  import opened ZoneModel
  import opened Wrappers

  /** A cell of either list. Only a name's cell uses `inner`, the head of its records. */
  class Cell {
    const key: string
    const text: string
    ghost const owner: Cell?
    var inner: Cell?
    var next: Cell?

    constructor (key: string, text: string, ghost owner: Cell?)
      ensures this.key == key && this.text == text && this.owner == owner && inner == null && next == null
    {
      this.key, this.text, this.owner := key, text, owner;
      inner, next := null, null;
    }
  }

  /** The pointers of a set of cells, read off the heap at one moment. */
  type Pointers = map<Cell, Cell?>

  ghost function Links(cells: set<Cell>): Pointers
    reads cells`next
  {
    map c | c in cells :: c.next
  }

  ghost function Inners(cells: set<Cell>): Pointers
    reads cells`inner
  {
    map c | c in cells :: c.inner
  }

  ghost function At(cells: seq<Cell>, i: nat): Cell? {
    if i < |cells| then cells[i] else null
  }

  ghost predicate IsDistinct(cells: seq<Cell>) {
    forall i, j :: 0 <= i < j < |cells| ==> cells[i] != cells[j]
  }

  /** Following `links` from `head` visits exactly `cells` and ends: no cycle and no other cell. */
  ghost predicate Linked(links: Pointers, head: Cell?, cells: seq<Cell>) {
    && head == At(cells, 0)
    && (forall i :: 0 <= i < |cells| ==> cells[i] in links)
    && (forall i, j {:trigger cells[i], At(cells, j)} ::
          0 <= i < |cells| && j == i + 1 ==> links[cells[i]] == At(cells, j))
  }

  ghost function Pushed(links: Pointers, head: Cell?, item: Cell): Pointers {
    links[item := head]
  }

  ghost function Appended(links: Pointers, cells: seq<Cell>, item: Cell): Pointers {
    (if cells == [] then links else links[cells[|cells| - 1] := item])[item := null]
  }

  lemma {:induction false} PushedLinked(links: Pointers, head: Cell?, cells: seq<Cell>, item: Cell)
    requires Linked(links, head, cells) && item !in links
    ensures Linked(Pushed(links, head, item), item, [item] + cells)
  {
    var all, after := [item] + cells, Pushed(links, head, item);
    forall i | 0 <= i < |all|
      ensures all[i] in after && after[all[i]] == At(all, i + 1)
    {
      assert i > 0 ==> all[i] == cells[i - 1] && At(all, i + 1) == At(cells, i);
    }
  }

  /** A list that ends in null cannot come back to a cell: the second visit would end as late as the first. */
  lemma {:induction false} NeverTwice(links: Pointers, head: Cell?, cells: seq<Cell>, i: nat, j: nat)
    requires Linked(links, head, cells) && i < j < |cells|
    ensures cells[i] != cells[j]
    decreases |cells| - j
  {
    assert links[cells[i]] == At(cells, i + 1) && links[cells[j]] == At(cells, j + 1);
    if j < |cells| - 1 {
      NeverTwice(links, head, cells, i + 1, j + 1);
    }
  }

  lemma {:induction false} LinkedIsDistinct(links: Pointers, head: Cell?, cells: seq<Cell>)
    requires Linked(links, head, cells)
    ensures IsDistinct(cells)
  {
    forall i, j | 0 <= i < j < |cells|
      ensures cells[i] != cells[j]
    {
      NeverTwice(links, head, cells, i, j);
    }
  }

  lemma {:induction false} AppendedLinked(links: Pointers, head: Cell?, cells: seq<Cell>, item: Cell)
    requires Linked(links, head, cells) && item !in links
    ensures Linked(Appended(links, cells, item), if cells == [] then item else head, cells + [item])
  {
    LinkedIsDistinct(links, head, cells);
    var all, after := cells + [item], Appended(links, cells, item);
    forall i | 0 <= i < |all|
      ensures all[i] in after && after[all[i]] == At(all, i + 1)
    {
      if i < |cells| - 1 {
        assert all[i] == cells[i] && cells[i] != cells[|cells| - 1];
        assert At(all, i + 1) == At(cells, i + 1);
      }
    }
  }

  /** A list none of whose cells changed its pointer is still the same list. */
  lemma {:induction false} StillLinked(before: Pointers, after: Pointers, head: Cell?, cells: seq<Cell>)
    requires Linked(before, head, cells)
    requires forall c :: c in cells ==> c in after && (c in before ==> after[c] == before[c])
    ensures Linked(after, head, cells)
  {
    forall i | 0 <= i < |cells|
      ensures cells[i] in after && after[cells[i]] == At(cells, i + 1)
    {
      assert cells[i] in cells && before[cells[i]] == At(cells, i + 1);
    }
  }

  method Find(head: Cell?, key: string, ghost cells: seq<Cell>, ghost repr: set<Cell>)
    returns (found: Cell?, ghost at: nat)
    requires Linked(Links(repr), head, cells)
    ensures found == null ==> forall i :: 0 <= i < |cells| ==> cells[i].key != key
    ensures found != null ==> at < |cells| && found == cells[at] && found.key == key
                              && forall i :: 0 <= i < at ==> cells[i].key != key
  {
    found, at := head, 0;
    while found != null
      invariant at <= |cells| && found == At(cells, at)
      invariant forall i :: 0 <= i < at ==> cells[i].key != key
      decreases |cells| - at
    {
      if found.key == key {
        return;
      }
      assert Links(repr)[cells[at]] == found.next == At(cells, at + 1);
      found, at := found.next, at + 1;
    }
  }

  method Push(head: Cell?, item: Cell, ghost repr: set<Cell>) returns (top: Cell)
    requires item !in repr
    modifies item`next
    ensures top == item
    ensures Links(repr + {item}) == Pushed(old(Links(repr)), head, item)
  {
    item.next := head;
    top := item;
  }

  method InsertBottom(head: Cell?, item: Cell, ghost cells: seq<Cell>, ghost repr: set<Cell>) returns (top: Cell)
    requires item !in repr && Linked(Links(repr), head, cells)
    modifies item`next, repr`next
    ensures top == if cells == [] then item else head
    ensures Links(repr + {item}) == Appended(old(Links(repr)), cells, item)
  {
    item.next := null;
    assert Links(repr) == old(Links(repr));
    if head == null {
      return item;
    }
    var p := head;
    ghost var k := 0;
    while p.next != null
      invariant Links(repr) == old(Links(repr)) && item.next == null
      invariant k < |cells| && p == cells[k]
      decreases |cells| - k
    {
      assert Links(repr)[cells[k]] == p.next == At(cells, k + 1);
      p, k := p.next, k + 1;
    }
    assert Links(repr)[cells[k]] == p.next == At(cells, k + 1);
    p.next := item;
    top := head;
  }

  ghost function RecordsOf(cells: seq<Cell>): (rs: seq<Record>)
    ensures |rs| == |cells|
  {
    seq(|cells|, i requires 0 <= i < |cells| => Record(cells[i].key, cells[i].text))
  }

  ghost function ContentsOf(names: seq<Cell>, records: seq<seq<Cell>>): (z: Contents)
    requires |names| == |records|
    ensures |z| == |names|
    ensures forall i :: 0 <= i < |z| ==> z[i] == (names[i].key, RecordsOf(records[i]))
  {
    seq(|names|, i requires 0 <= i < |names| => (names[i].key, RecordsOf(records[i])))
  }

  lemma {:induction false} FoundIsIndex(names: seq<Cell>, records: seq<seq<Cell>>, key: string, found: Cell?, at: nat)
    requires |names| == |records|
    requires found == null ==> forall i :: 0 <= i < |names| ==> names[i].key != key
    requires found != null ==> at < |names| && found == names[at] && found.key == key
                               && forall i :: 0 <= i < at ==> names[i].key != key
    ensures IndexOf(ContentsOf(names, records), key) == if found == null then None else Some(at)
  {
    var z := ContentsOf(names, records);
    assert forall i :: 0 <= i < |names| ==> z[i].0 == names[i].key;
  }

  function WithCell<T>(kind: string, item: T, items: seq<T>): seq<T> {
    if kind == "SOA" then [item] + items else items + [item]
  }

  ghost predicate Holds(cell: Cell, c: Call) {
    cell.key == c.ttl + " " + c.kind && cell.text == c.value
  }

  lemma {:induction false} RecordsWithCell(cells: seq<Cell>, cell: Cell, c: Call)
    requires Holds(cell, c)
    ensures RecordsOf(WithCell(c.kind, cell, cells)) == WithRecord(RecordsOf(cells), c)
  {
  }

  lemma {:induction false} ChangedEntry(names: seq<Cell>, records: seq<seq<Cell>>, at: nat, cell: Cell, c: Call)
    requires |names| == |records| && at < |names| && Effective(c) && names[at].key == c.name && Holds(cell, c)
    requires IndexOf(ContentsOf(names, records), c.name) == Some(at)
    ensures ContentsOf(names, records[at := WithCell(c.kind, cell, records[at])]) == Put(ContentsOf(names, records), c)
  {
    RecordsWithCell(records[at], cell, c);
  }

  /** Where a new name goes: `@` on top, every other name at the bottom. */
  function WithName<T>(name: string, item: T, items: seq<T>): seq<T> {
    if name == "@" then [item] + items else items + [item]
  }

  function NameIndex(name: string, count: nat): nat {
    if name == "@" then 0 else count
  }

  lemma {:induction false} NewEntry(names: seq<Cell>, records: seq<seq<Cell>>, rr: Cell, cell: Cell, c: Call)
    requires |names| == |records| && Effective(c) && rr.key == c.name && Holds(cell, c)
    requires IndexOf(ContentsOf(names, records), c.name).None?
    ensures ContentsOf(WithName(c.name, rr, names), WithName(c.name, WithCell(c.kind, cell, []), records))
            == Put(ContentsOf(names, records), c)
  {
    var z := ContentsOf(names, records);
    var after := ContentsOf(WithName(c.name, rr, names), WithName(c.name, WithCell(c.kind, cell, []), records));
    var at := NameIndex(c.name, |names|);
    RecordsWithCell([], cell, c);
    assert RecordsOf([]) == [];
    assert after[at] == (c.name, WithRecord([], c));
    forall i | 0 <= i < |after| && i != at
      ensures after[i] == z[if c.name == "@" then i - 1 else i]
    {
    }
  }

  ghost predicate IsNameCell(names: seq<Cell>, repr: set<Cell>, i: nat)
    requires i < |names|
  {
    names[i] in repr && names[i].owner == null
  }

  ghost predicate OwnsRecords(names: seq<Cell>, records: seq<seq<Cell>>, repr: set<Cell>, i: nat)
    requires i < |names| == |records|
  {
    forall r :: r in records[i] ==> r in repr && r.owner == names[i]
  }

  ghost predicate LinksRecords(links: Pointers, inners: Pointers, names: seq<Cell>, records: seq<seq<Cell>>, i: nat)
    requires i < |names| == |records|
  {
    names[i] in inners && Linked(links, inners[names[i]], records[i])
  }

  /** Which cells belong to which list; the owner of a cell never changes. */
  ghost predicate Owned(names: seq<Cell>, records: seq<seq<Cell>>, repr: set<Cell>) {
    && |records| == |names|
    && (forall i :: 0 <= i < |names| ==> IsNameCell(names, repr, i))
    && (forall i :: 0 <= i < |names| ==> OwnsRecords(names, records, repr, i))
  }

  ghost predicate RecordsLinked(links: Pointers, inners: Pointers, names: seq<Cell>, records: seq<seq<Cell>>)
    requires |records| == |names|
  {
    forall i :: 0 <= i < |names| ==> LinksRecords(links, inners, names, records, i)
  }

  /** One list of names, and under each name one list of records that belongs to it alone. */
  ghost predicate Shape(
    links: Pointers, inners: Pointers, head: Cell?, names: seq<Cell>, records: seq<seq<Cell>>, repr: set<Cell>)
  {
    && links.Keys == repr
    && Owned(names, records, repr)
    && Linked(links, head, names)
    && RecordsLinked(links, inners, names, records)
  }

  lemma {:induction false} NameCells(names: seq<Cell>, records: seq<seq<Cell>>, repr: set<Cell>)
    requires Owned(names, records, repr)
    ensures forall n :: n in names ==> n in repr && n.owner == null
  {
    forall n | n in names
      ensures n in repr && n.owner == null
    {
      var i :| 0 <= i < |names| && names[i] == n;
      assert IsNameCell(names, repr, i);
    }
  }

  lemma {:induction false} OwnedWithName(names: seq<Cell>, records: seq<seq<Cell>>, repr: set<Cell>, rr: Cell)
    requires Owned(names, records, repr) && rr.owner == null
    ensures Owned(WithName(rr.key, rr, names), WithName(rr.key, [], records), repr + {rr})
  {
    var ns, rs, repr' := WithName(rr.key, rr, names), WithName(rr.key, [], records), repr + {rr};
    forall i | 0 <= i < |ns|
      ensures IsNameCell(ns, repr', i) && OwnsRecords(ns, rs, repr', i)
    {
      if i != NameIndex(rr.key, |names|) {
        var k := if rr.key == "@" then i - 1 else i;
        assert ns[i] == names[k] && rs[i] == records[k];
        assert IsNameCell(names, repr, k) && OwnsRecords(names, records, repr, k);
      }
    }
  }

  lemma {:induction false} RecordsLinkedWithName(
    links: Pointers, inners: Pointers, names: seq<Cell>, records: seq<seq<Cell>>, repr: set<Cell>, rr: Cell, links': Pointers)
    requires links.Keys == repr && Owned(names, records, repr) && rr !in repr
    requires RecordsLinked(links, inners, names, records)
    requires links'.Keys == repr + {rr}
    requires forall c :: c in links && c.owner != null ==> links'[c] == links[c]
    ensures RecordsLinked(links', inners[rr := null], WithName(rr.key, rr, names), WithName(rr.key, [], records))
  {
    var ns, rs, inners' := WithName(rr.key, rr, names), WithName(rr.key, [], records), inners[rr := null];
    forall i | 0 <= i < |ns|
      ensures LinksRecords(links', inners', ns, rs, i)
    {
      if i != NameIndex(rr.key, |names|) {
        var k := if rr.key == "@" then i - 1 else i;
        assert ns[i] == names[k] && rs[i] == records[k];
        assert IsNameCell(names, repr, k) && OwnsRecords(names, records, repr, k);
        assert LinksRecords(links, inners, names, records, k);
        StillLinked(links, links', inners[names[k]], records[k]);
      }
    }
  }

  ghost function LinksWithName(name: string, links: Pointers, head: Cell?, names: seq<Cell>, rr: Cell): Pointers
    requires Linked(links, head, names)
  {
    if name == "@" then Pushed(links, head, rr) else Appended(links, names, rr)
  }

  lemma {:induction false} ShapeWithName(
    links: Pointers, inners: Pointers, head: Cell?, names: seq<Cell>, records: seq<seq<Cell>>, repr: set<Cell>,
    rr: Cell, links': Pointers)
    requires Shape(links, inners, head, names, records, repr) && rr !in repr && rr.owner == null
    requires links' == LinksWithName(rr.key, links, head, names, rr)
    ensures Shape(links', inners[rr := null], if rr.key == "@" || names == [] then rr else head,
                  WithName(rr.key, rr, names), WithName(rr.key, [], records), repr + {rr})
  {
    NameCells(names, records, repr);
    OwnedWithName(names, records, repr, rr);
    PushedLinked(links, head, names, rr);
    AppendedLinked(links, head, names, rr);
    assert names != [] ==> names[|names| - 1] in names;
    RecordsLinkedWithName(links, inners, names, records, repr, rr, links');
  }

  lemma {:induction false} OwnedWithRecord(
    names: seq<Cell>, records: seq<seq<Cell>>, repr: set<Cell>, at: nat, cell: Cell, kind: string)
    requires Owned(names, records, repr) && at < |names| && cell.owner == names[at]
    ensures Owned(names, records[at := WithCell(kind, cell, records[at])], repr + {cell})
  {
    var rs, repr' := records[at := WithCell(kind, cell, records[at])], repr + {cell};
    forall i | 0 <= i < |names|
      ensures IsNameCell(names, repr', i) && OwnsRecords(names, rs, repr', i)
    {
      assert IsNameCell(names, repr, i) && OwnsRecords(names, records, repr, i);
    }
  }

  /** Lists of other owners do not notice changes to cells owned by `rr` or by nobody in the zone. */
  lemma {:induction false} OthersStayLinked(
    links: Pointers, links': Pointers, head: Cell?, cells: seq<Cell>, owner: Cell?, rr: Cell)
    requires Linked(links, head, cells)
    requires forall c :: c in cells ==> c.owner == owner
    requires forall c :: c in links && c.owner != rr ==> c in links' && links'[c] == links[c]
    requires owner != rr
    ensures Linked(links', head, cells)
  {
    forall c | c in cells
      ensures c in links' && (c in links ==> links'[c] == links[c])
    {
      var i :| 0 <= i < |cells| && cells[i] == c;
    }
    StillLinked(links, links', head, cells);
  }

  lemma {:induction false} RecordsLinkedWithRecord(
    links: Pointers, inners: Pointers, names: seq<Cell>, records: seq<seq<Cell>>, repr: set<Cell>,
    at: nat, cell: Cell, links': Pointers, top: Cell?, mine: seq<Cell>)
    requires Owned(names, records, repr) && IsDistinct(names) && at < |names| && cell !in repr
    requires RecordsLinked(links, inners, names, records) && Linked(links', top, mine)
    requires forall c :: c in links && c.owner != names[at] ==> c in links' && links'[c] == links[c]
    ensures RecordsLinked(links', inners[cell := null][names[at] := top], names, records[at := mine])
  {
    var inners' := inners[cell := null][names[at] := top];
    var rs := records[at := mine];
    forall i | 0 <= i < |names|
      ensures LinksRecords(links', inners', names, rs, i)
    {
      assert IsNameCell(names, repr, i) && OwnsRecords(names, records, repr, i);
      assert LinksRecords(links, inners, names, records, i);
      if i != at {
        assert names[i] != names[at];
        OthersStayLinked(links, links', inners[names[i]], records[i], names[i], names[at]);
      }
    }
  }

  lemma {:induction false} ShapeWithRecord(
    links: Pointers, inners: Pointers, head: Cell?, names: seq<Cell>, records: seq<seq<Cell>>, repr: set<Cell>,
    at: nat, cell: Cell, kind: string, links': Pointers, top: Cell?)
    requires Shape(links, inners, head, names, records, repr)
    requires at < |names| && cell !in repr && cell.owner == names[at] && names[at] in inners
    requires links' == if kind == "SOA" then Pushed(links, inners[names[at]], cell) else Appended(links, records[at], cell)
    requires top == if kind == "SOA" || records[at] == [] then cell else inners[names[at]]
    ensures Shape(links', inners[cell := null][names[at] := top], head,
                  names, records[at := WithCell(kind, cell, records[at])], repr + {cell})
  {
    var rr, mine := names[at], records[at];
    NameCells(names, records, repr);
    assert OwnsRecords(names, records, repr, at) && LinksRecords(links, inners, names, records, at);
    LinkedIsDistinct(links, head, names);
    OwnedWithRecord(names, records, repr, at, cell, kind);
    PushedLinked(links, inners[rr], mine, cell);
    AppendedLinked(links, inners[rr], mine, cell);
    OnlyMineChanged(links, inners[rr], mine, cell, kind, rr);
    assert rr in names;
    OthersStayLinked(links, links', head, names, null, rr);
    RecordsLinkedWithRecord(links, inners, names, records, repr, at, cell, links', top, WithCell(kind, cell, mine));
  }

  lemma {:induction false} OnlyMineChanged(links: Pointers, head: Cell?, mine: seq<Cell>, cell: Cell, kind: string, rr: Cell)
    requires cell !in links && cell.owner == rr
    requires Linked(links, head, mine)
    requires forall r :: r in mine ==> r.owner == rr
    ensures var after := if kind == "SOA" then Pushed(links, head, cell) else Appended(links, mine, cell);
            && after.Keys == links.Keys + {cell}
            && forall c :: c in links && c.owner != rr ==> after[c] == links[c]
  {
    assert mine != [] ==> mine[|mine| - 1] in mine;
  }

  lemma {:induction false} SameShape(
    links: Pointers, inners: Pointers, head: Cell?, names: seq<Cell>, records: seq<seq<Cell>>, repr: set<Cell>,
    inners': Pointers)
    requires Shape(links, inners, head, names, records, repr) && inners' == inners
    ensures Shape(links, inners', head, names, records, repr)
  {
  }

  lemma {:induction false} InnersWith(repr: set<Cell>, cell: Cell)
    requires cell !in repr
    ensures Inners(repr + {cell}) == Inners(repr)[cell := cell.inner]
  {
  }

  /** Makes a new record's cell and puts it on a list of records. */
  method AttachRecord(head: Cell?, c: Call, ghost cells: seq<Cell>, ghost repr: set<Cell>, ghost rr: Cell)
    returns (cell: Cell, top: Cell)
    requires Linked(Links(repr), head, cells)
    modifies repr`next
    ensures fresh(cell) && Holds(cell, c) && cell.owner == rr
    ensures top == if c.kind == "SOA" || cells == [] then cell else head
    ensures Inners(repr + {cell}) == old(Inners(repr))[cell := null]
    ensures Links(repr + {cell}) ==
            if c.kind == "SOA" then Pushed(old(Links(repr)), head, cell) else Appended(old(Links(repr)), cells, cell)
  {
    cell := new Cell(c.ttl + " " + c.kind, c.value, rr);
    if c.kind == "SOA" {
      top := Push(head, cell, repr);
    } else {
      top := InsertBottom(head, cell, cells, repr);
    }
    InnersWith(repr, cell);
  }

  method SetInner(rr: Cell, top: Cell, ghost repr: set<Cell>)
    requires rr in repr
    modifies rr`inner
    ensures Inners(repr) == old(Inners(repr))[rr := top]
  {
    rr.inner := top;
  }

  /** The shape after a new name, on the pointers as they are then. */
  lemma {:induction false} NamedShape(
    links: Pointers, inners: Pointers, head: Cell?, names: seq<Cell>, records: seq<seq<Cell>>, repr: set<Cell>,
    rr: Cell, links': Pointers, inners': Pointers)
    requires Shape(links, inners, head, names, records, repr) && rr !in repr && rr.owner == null
    requires links' == LinksWithName(rr.key, links, head, names, rr) && inners' == inners[rr := null]
    ensures Shape(links', inners', if rr.key == "@" || names == [] then rr else head,
                  WithName(rr.key, rr, names), WithName(rr.key, [], records), repr + {rr})
  {
    ShapeWithName(links, inners, head, names, records, repr, rr, links');
  }

  /** Makes a new name's cell and puts it on the list of names. */
  method AttachName(head: Cell?, name: string, ghost names: seq<Cell>, ghost repr: set<Cell>) returns (rr: Cell, top: Cell)
    requires Linked(Links(repr), head, names)
    modifies repr`next
    ensures fresh(rr) && rr.key == name && rr.owner == null
    ensures top == if name == "@" || names == [] then rr else head
    ensures Inners(repr + {rr}) == old(Inners(repr))[rr := null]
    ensures Links(repr + {rr}) == LinksWithName(name, old(Links(repr)), head, names, rr)
  {
    rr := new Cell(name, "", null);
    if name == "@" {
      top := Push(head, rr, repr);
    } else {
      top := InsertBottom(head, rr, names, repr);
    }
    InnersWith(repr, rr);
  }

  /** A new name on a well-formed zone. */
  method AttachToZone(head: Cell?, name: string, ghost names: seq<Cell>, ghost records: seq<seq<Cell>>, ghost repr: set<Cell>)
    returns (rr: Cell, top: Cell)
    requires Shape(Links(repr), Inners(repr), head, names, records, repr)
    modifies repr`next
    ensures fresh(rr) && rr.key == name
    ensures Shape(Links(repr + {rr}), Inners(repr + {rr}), top,
                  WithName(name, rr, names), WithName(name, [], records), repr + {rr})
  {
    ghost var links, inners := Links(repr), Inners(repr);
    rr, top := AttachName(head, name, names, repr);
    NamedShape(links, inners, head, names, records, repr, rr, Links(repr + {rr}), Inners(repr + {rr}));
  }

  /** Hangs a new record below a name's cell. */
  method AddBelow(rr: Cell, c: Call, ghost cells: seq<Cell>, ghost repr: set<Cell>) returns (cell: Cell, ghost top: Cell)
    requires rr in repr && Linked(Links(repr), rr.inner, cells)
    modifies rr`inner, repr`next
    ensures fresh(cell) && Holds(cell, c) && cell.owner == rr
    ensures top == if c.kind == "SOA" || cells == [] then cell else old(rr.inner)
    ensures Inners(repr + {cell}) == old(Inners(repr))[cell := null][rr := top]
    ensures Links(repr + {cell}) ==
            if c.kind == "SOA" then Pushed(old(Links(repr)), old(rr.inner), cell)
            else Appended(old(Links(repr)), cells, cell)
  {
    var first;
    cell, first := AttachRecord(rr.inner, c, cells, repr, rr);
    top := first;
    SetInner(rr, first, repr + {cell});
  }

  lemma {:induction false} UpdatedNew<T>(name: string, items: seq<T>, blank: T, item: T)
    ensures WithName(name, blank, items)[NameIndex(name, |items|) := item] == WithName(name, item, items)
  {
  }

  class Zone {
    var head: Cell?
    ghost var names: seq<Cell>
    ghost var records: seq<seq<Cell>>
    ghost var repr: set<Cell>

    ghost predicate Valid()
      reads this, repr
    {
      Shape(Links(repr), Inners(repr), head, names, records, repr)
    }

    ghost function Content(): Contents
      reads this
      requires |records| == |names|
    {
      ContentsOf(names, records)
    }

    constructor ()
      ensures Valid() && fresh(repr) && Content() == []
    {
      head, names, records, repr := null, [], [], {};
    }

    /** Adds a name without records, at the top for `@` and at the bottom otherwise. */
    method AddName(name: string) returns (rr: Cell)
      requires Valid()
      modifies this, repr
      ensures Valid() && fresh(rr) && repr == old(repr) + {rr} && rr.key == name
      ensures names == WithName(name, rr, old(names)) && records == WithName(name, [], old(records))
    {
      var top;
      rr, top := AttachToZone(head, name, names, records, repr);
      ghost var all, names', records' := repr + {rr}, WithName(name, rr, names), WithName(name, [], records);
      ghost var links, inners := Links(all), Inners(all);
      head, names, records, repr := top, names', records', all;
      assert Links(all) == links;
      assert Inners(all) == inners;
    }

    /** Adds a record under a name: SOA records at the top, others at the bottom. */
    method AddRecord(rr: Cell, ghost at: nat, c: Call) returns (cell: Cell)
      requires Valid() && at < |names| && rr == names[at]
      modifies this, repr
      ensures Valid() && fresh(cell) && repr == old(repr) + {cell} && Holds(cell, c)
      ensures names == old(names) && records == old(records)[at := WithCell(c.kind, cell, old(records)[at])]
    {
      ghost var links, inners, records0, repr0 := Links(repr), Inners(repr), records, repr;
      assert IsNameCell(names, repr, at) && LinksRecords(links, inners, names, records, at);
      assert inners[rr] == rr.inner;
      ghost var top;
      cell, top := AddBelow(rr, c, records[at], repr);
      records, repr := records0[at := WithCell(c.kind, cell, records0[at])], repr0 + {cell};
      ShapeWithRecord(links, inners, head, names, records0, repr0, at, cell, c.kind, Links(repr), top);
      SameShape(Links(repr), inners[cell := null][names[at] := top], head, names, records, repr, Inners(repr));
    }

    /** `putrr`: the lists change exactly as the ordered map of names does. */
    method PutRr(c: Call)
      requires Valid()
      modifies this, repr
      ensures Valid() && fresh(repr - old(repr))
      ensures Content() == Put(old(Content()), c)
    {
      if c.name == "" || c.value == "" {
        return;
      }
      ghost var names0, records0, repr0 := names, records, repr;
      var rr, at := Find(head, c.name, names, repr);
      FoundIsIndex(names0, records0, c.name, rr, at);
      if rr == null {
        rr := AddName(c.name);
        var cell := AddRecord(rr, NameIndex(c.name, |names0|), c);
        UpdatedNew(c.name, records0, [], WithCell(c.kind, cell, []));
        assert repr - repr0 <= {rr, cell};
        NewEntry(names0, records0, rr, cell, c);
      } else {
        var cell := AddRecord(rr, at, c);
        assert repr - repr0 <= {cell};
        ChangedEntry(names0, records0, at, cell, c);
      }
    }

    /** The whole build: the zone's final layout is the one described for its sequence of calls. */
    method PutRrs(calls: seq<Call>)
      requires Valid() && Content() == []
      modifies this, repr
      ensures Valid() && Content() == PutAll(calls) && Layout(calls, Content())
    {
      for i := 0 to |calls|
        invariant Valid() && fresh(repr - old(repr))
        invariant Content() == PutAll(calls[..i])
      {
        assert calls[..i + 1][..i] == calls[..i];
        PutRr(calls[i]);
      }
      assert calls[..|calls|] == calls;
      ZoneLayout(calls);
    }
  }
}
