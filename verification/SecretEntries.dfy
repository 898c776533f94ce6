/**
 The metadata list of secrets.yaml: one entry per Kubernetes secret key, merged
 with the pointers of a write, every new pointer getting an id not yet in use.
 */
module SecretEntries {
  import opened Common
  import opened Ordering

  datatype Pointer = Pointer(namespace: string, name: string, key: string)

  datatype Entry = Entry(id: string, description: string, pointer: Pointer)

  /** The keys written to one Kubernetes secret; the values never reach this file. */
  datatype SecretWrite = SecretWrite(namespace: string, keys: set<string>)

  type Writes = map<string, SecretWrite>

  predicate Complete(e: Entry)
  {
    e.id != "" && e.pointer.namespace != "" && e.pointer.name != "" && e.pointer.key != ""
  }

  ghost predicate DistinctIds(entries: seq<Entry>)
  {
    forall i, j :: 0 <= i < j < |entries| ==> entries[i].id != entries[j].id
  }

  ghost predicate DistinctPointers(entries: seq<Entry>)
  {
    forall i, j :: 0 <= i < j < |entries| ==> entries[i].pointer != entries[j].pointer
  }

  /** What the parser of secrets.yaml accepts. */
  ghost predicate Parseable(entries: seq<Entry>)
  {
    (forall e :: e in entries ==> Complete(e)) && DistinctIds(entries)
  }

  /** What the validation of an admin write lets through, as far as it matters here. */
  predicate ValidWrites(writes: Writes)
  {
    forall name :: name in writes ==>
      name != "" && writes[name].namespace != "" && forall key :: key in writes[name].keys ==> key != ""
  }

  function Written(writes: Writes): set<Pointer>
  {
    set name, key | name in writes && key in writes[name].keys :: Pointer(writes[name].namespace, name, key)
  }

  function Pointers(entries: seq<Entry>): set<Pointer>
  {
    set e | e in entries :: e.pointer
  }

  // ---------------------------------------------------------------------------
  // Fresh ids
  // ---------------------------------------------------------------------------

  function Decimal(n: nat): (s: string)
    ensures s != ""
  {
    var last := [(('0' as int) + n % 10) as char];
    if n < 10 then last else Decimal(n / 10) + last
  }

  lemma {:induction false} DecimalInjective(a: nat, b: nat)
    requires Decimal(a) == Decimal(b)
    ensures a == b
  {
    var s := Decimal(a);
    assert s[|s| - 1] == (('0' as int) + a % 10) as char == (('0' as int) + b % 10) as char;
    if a >= 10 && b >= 10 {
      assert Decimal(a / 10) == s[..|s| - 1] == Decimal(b / 10);
      DecimalInjective(a / 10, b / 10);
    }
  }

  /** The number that a text of digits stands for. */
  function ValueOf(s: string): int
  {
    if s == "" then 0 else 10 * ValueOf(s[..|s| - 1]) + (s[|s| - 1] as int - '0' as int)
  }

  lemma {:induction false} DecimalReadsBack(n: nat)
    ensures ValueOf(Decimal(n)) == n && forall c :: c in Decimal(n) ==> '0' <= c <= '9'
    ensures n > 0 ==> Decimal(n)[0] != '0'
  {
    var s := Decimal(n);
    if n >= 10 {
      DecimalReadsBack(n / 10);
      assert s[..|s| - 1] == Decimal(n / 10);
    } else {
      assert s[..0] == "";
    }
  }

  function Suffixed(base: string, i: nat): string
  {
    base + "-" + Decimal(i)
  }

  lemma SuffixedInjective(base: string, i: nat, j: nat)
    requires Suffixed(base, i) == Suffixed(base, j)
    ensures i == j
  {
    assert Suffixed(base, i)[|base| + 1..] == Decimal(i);
    assert Suffixed(base, j)[|base| + 1..] == Decimal(j);
    DecimalInjective(i, j);
  }

  /** The first free suffix, counted from i. Each id in use is met at most once. */
  function FirstFree(base: string, i: nat, used: set<string>): (n: nat)
    decreases |used|
  {
    if Suffixed(base, i) !in used then i else FirstFree(base, i + 1, used - {Suffixed(base, i)})
  }

  lemma {:induction false} FirstFreeIsFirst(base: string, i: nat, used: set<string>)
    ensures var n := FirstFree(base, i, used);
            && n >= i && Suffixed(base, n) !in used
            && forall j :: i <= j < n ==> Suffixed(base, j) in used
    decreases |used|
  {
    var id := Suffixed(base, i);
    if id in used {
      FirstFreeIsFirst(base, i + 1, used - {id});
      var n := FirstFree(base, i, used);
      if Suffixed(base, n) == id {
        SuffixedInjective(base, n, i);
      }
    }
  }

  function UniqueID(p: Pointer, used: set<string>): string
  {
    var longer := p.name + "-" + p.key;
    var longest := p.namespace + "-" + p.name + "-" + p.key;
    if p.key !in used then p.key
    else if longer !in used then longer
    else if longest !in used then longest
    else Suffixed(longest, FirstFree(longest, 2, used))
  }

  lemma UniqueIDIsFresh(p: Pointer, used: set<string>)
    ensures UniqueID(p, used) !in used
    ensures p.key != "" ==> UniqueID(p, used) != ""
  {
    FirstFreeIsFirst(p.namespace + "-" + p.name + "-" + p.key, 2, used);
  }

  /** The plain key if it is free, then longer and longer names, then the first free number from 2 on. */
  lemma UniqueIDPrefersShort(p: Pointer, used: set<string>)
    ensures p.key !in used ==> UniqueID(p, used) == p.key
    ensures p.key in used && p.name + "-" + p.key !in used ==> UniqueID(p, used) == p.name + "-" + p.key
    ensures var all := p.namespace + "-" + p.name + "-" + p.key;
            p.key in used && p.name + "-" + p.key in used ==>
              if all !in used then UniqueID(p, used) == all
              else exists n: nat :: && n >= 2 && UniqueID(p, used) == all + "-" + Decimal(n)
                                    && UniqueID(p, used) !in used
                                    && forall j: nat :: 2 <= j < n ==> all + "-" + Decimal(j) in used
  {
    var all := p.namespace + "-" + p.name + "-" + p.key;
    FirstFreeIsFirst(all, 2, used);
    var n := FirstFree(all, 2, used);
    forall j: nat | 2 <= j < n ensures all + "-" + Decimal(j) in used {
      assert Suffixed(all, j) in used;
    }
    assert Suffixed(all, n) == all + "-" + Decimal(n);
  }

  /** The search for a free id has no bound of its own; it ends because ids in use run out. */
  method UniqueSecretID(namespace: string, name: string, key: string, idInUse: map<string, Pointer>)
    returns (id: string)
    ensures id == UniqueID(Pointer(namespace, name, key), idInUse.Keys) && id !in idInUse
  {
    UniqueIDIsFresh(Pointer(namespace, name, key), idInUse.Keys);
    var candidates := [key, name + "-" + key, namespace + "-" + name + "-" + key];
    for n := 0 to |candidates|
      invariant forall m :: 0 <= m < n ==> candidates[m] in idInUse
    {
      if candidates[n] !in idInUse {
        assert n >= 1 ==> candidates[0] in idInUse;
        assert n >= 2 ==> candidates[1] in idInUse;
        return candidates[n];
      }
    }
    assert candidates[0] in idInUse && candidates[1] in idInUse && candidates[2] in idInUse;
    var base := candidates[|candidates| - 1];
    var i := 2;
    ghost var untried := idInUse.Keys;
    while true
      invariant untried <= idInUse.Keys && i >= 2
      invariant forall j :: j >= i && Suffixed(base, j) in idInUse ==> Suffixed(base, j) in untried
      invariant FirstFree(base, i, untried) == FirstFree(base, 2, idInUse.Keys)
      decreases |untried|
    {
      id := base + "-" + Decimal(i);
      assert id == Suffixed(base, i);
      if id !in idInUse {
        return;
      }
      forall j | j >= i + 1 && Suffixed(base, j) in idInUse ensures Suffixed(base, j) in untried - {id} {
        if Suffixed(base, j) == id { SuffixedInjective(base, j, i); }
      }
      untried := untried - {id};
      i := i + 1;
    }
  }

  // ---------------------------------------------------------------------------
  // The merge
  // ---------------------------------------------------------------------------

  datatype Table = Table(byPointer: map<Pointer, Entry>, idInUse: map<string, Pointer>)

  function Put(t: Table, e: Entry): Table
  {
    Table(t.byPointer[e.pointer := e], if e.id != "" then t.idInUse[e.id := e.pointer] else t.idInUse)
  }

  function Load(entries: seq<Entry>): Table
  {
    if entries == [] then Table(map[], map[])
    else Put(Load(entries[..|entries| - 1]), entries[|entries| - 1])
  }

  function Add(t: Table, p: Pointer): Table
  {
    if p in t.byPointer then t
    else var id := UniqueID(p, t.idInUse.Keys);
         Table(t.byPointer[p := Entry(id, "", p)], t.idInUse[id := p])
  }

  function AddAll(t: Table, pointers: seq<Pointer>): Table
  {
    if pointers == [] then t else Add(AddAll(t, pointers[..|pointers| - 1]), pointers[|pointers| - 1])
  }

  function EntryKey(e: Entry): seq<string>
  {
    [e.id, e.pointer.namespace, e.pointer.name, e.pointer.key]
  }

  function WriteKey(p: Pointer): seq<string>
  {
    [p.name, p.key]
  }

  /** Secret names in order, and the keys of each in order. */
  ghost predicate InWriteOrder(order: seq<Pointer>, writes: Writes)
  {
    && SortedBy(order, WriteKey)
    && NoRepeats(order)
    && forall p :: p in order <==> p in Written(writes)
  }

  /** `entries` lists the merge of `existing` and `writes`, sorted by id. */
  ghost predicate IsMerge(entries: seq<Entry>, existing: seq<Entry>, writes: Writes)
  {
    && SortedBy(entries, EntryKey)
    && exists order :: InWriteOrder(order, writes) &&
                       multiset(entries) == multiset(AddAll(Load(existing), order).byPointer.Values)
  }

  method MergeSecretEntries(existing: Option<seq<Entry>>, writes: Writes) returns (entries: seq<Entry>)
    ensures existing.None? ==> entries == Merged([], writes)
    ensures existing.Some? ==> IsMerge(entries, existing.value, writes)
    ensures existing.Some? && Parseable(existing.value) ==> entries == Merged(existing.value, writes)
  {
    var table := Table(map[], map[]);
    var listed := if existing.Some? then existing.value else [];
    for i := 0 to |listed|
      invariant table == Load(listed[..i])
    {
      assert listed[..i + 1][..i] == listed[..i];
      table := Put(table, listed[i]);
    }
    assert listed[..|listed|] == listed;
    var order := WriteOrder(writes);
    for i := 0 to |order|
      invariant table == AddAll(Load(listed), order[..i])
    {
      assert order[..i + 1][..i] == order[..i];
      var p := order[i];
      if p in table.byPointer {
        continue;
      }
      var id := UniqueSecretID(p.namespace, p.name, p.key, table.idInUse);
      table := Table(table.byPointer[p := Entry(id, "", p)], table.idInUse[id := p]);
    }
    assert order[..|order|] == order;
    var values := ToList(table.byPointer.Values);
    entries := Sort(values, EntryKey);
    MergedIsMerge(listed, writes);
    if Parseable(listed) {
      MergeIsDeterministic(entries, Merged(listed, writes), listed, writes);
    }
  }

  method SortedTexts(items: set<string>) returns (list: seq<string>)
    ensures SortedBy(list, ByText) && NoRepeats(list)
    ensures forall x :: x in list <==> x in items
  {
    var all := ToList(items);
    list := Sort(all, ByText);
    assert forall x :: x in list <==> x in multiset(list);
    assert forall x :: x in all <==> x in multiset(all);
    assert (set x | x in list) == items;
    NoRepeatsCounts(list);
  }

  /** The pointers of one secret, by key. */
  method GroupOf(writes: Writes, name: string) returns (group: seq<Pointer>)
    requires name in writes
    ensures SortedBy(group, WriteKey) && NoRepeats(group)
    ensures forall p :: p in group <==> p in Written(writes) && p.name == name
  {
    var keys := SortedTexts(writes[name].keys);
    group := [];
    for j := 0 to |keys|
      invariant |group| == j
      invariant forall k :: 0 <= k < j ==> group[k] == Pointer(writes[name].namespace, name, keys[k])
    {
      group := group + [Pointer(writes[name].namespace, name, keys[j])];
    }
    GroupSorted(group, name, keys);
    forall p | p in Written(writes) && p.name == name ensures p in group {
      var k :| 0 <= k < |keys| && keys[k] == p.key;
      assert group[k] == p;
    }
  }

  /** The two nested loops over sorted secret names and sorted data keys. */
  method WriteOrder(writes: Writes) returns (order: seq<Pointer>)
    ensures InWriteOrder(order, writes)
  {
    var names := SortedTexts(writes.Keys);
    order := [];
    for i := 0 to |names|
      invariant SortedBy(order, WriteKey) && NoRepeats(order)
      invariant forall p :: p in order <==> p in Written(writes) && p.name in names[..i]
    {
      var name := names[i];
      var group := GroupOf(writes, name);
      assert name !in names[..i];
      NamesBefore(order, names, i, group);
      order := order + group;
      assert names[..i + 1] == names[..i] + [name];
    }
    assert names[..|names|] == names;
  }

  lemma GroupSorted(group: seq<Pointer>, name: string, keys: seq<string>)
    requires SortedBy(keys, ByText) && |group| == |keys|
    requires forall k :: 0 <= k < |keys| ==> group[k].name == name && group[k].key == keys[k]
    ensures SortedBy(group, WriteKey)
  {
    forall i, j | 0 <= i < j < |group| ensures RecordLe(WriteKey(group[i]), WriteKey(group[j])) {
      assert RecordLe(ByText(keys[i]), ByText(keys[j]));
      assert WriteKey(group[i])[1..] == ByText(keys[i]) && WriteKey(group[j])[1..] == ByText(keys[j]);
    }
  }

  lemma NamesBefore(before: seq<Pointer>, names: seq<string>, i: nat, group: seq<Pointer>)
    requires SortedBy(names, ByText) && i < |names| && names[i] !in names[..i]
    requires forall p :: p in before ==> p.name in names[..i]
    requires forall p :: p in group ==> p.name == names[i]
    requires SortedBy(before, WriteKey) && SortedBy(group, WriteKey)
    ensures SortedBy(before + group, WriteKey)
  {
    forall p, q | p in before && q in group ensures RecordLe(WriteKey(p), WriteKey(q)) {
      var j :| 0 <= j < i && names[j] == p.name;
      assert RecordLe(ByText(names[j]), ByText(names[i]));
      assert p.name != q.name;
    }
  }

  // ---------------------------------------------------------------------------
  // What the merge keeps and adds
  // ---------------------------------------------------------------------------

  /** Each entry sits under its pointer, every id is recorded as used, and ids are distinct. */
  ghost predicate Coherent(t: Table)
  {
    && (forall p :: p in t.byPointer ==> t.byPointer[p].pointer == p && t.byPointer[p].id in t.idInUse)
    && (forall p, q :: p in t.byPointer && q in t.byPointer && p != q ==> t.byPointer[p].id != t.byPointer[q].id)
  }

  lemma {:induction false} LoadCoherent(entries: seq<Entry>)
    requires Parseable(entries)
    ensures Coherent(Load(entries)) && Load(entries).byPointer.Keys == Pointers(entries)
    ensures forall p :: p in Load(entries).byPointer ==> Load(entries).byPointer[p] in entries
  {
    if entries != [] {
      var init, last := entries[..|entries| - 1], entries[|entries| - 1];
      hide Coherent;
      assert entries == init + [last];
      assert Parseable(init) by {
        assert forall e :: e in init ==> e in entries;
        assert forall i :: 0 <= i < |init| ==> init[i] == entries[i];
      }
      LoadCoherent(init);
      forall e | e in init ensures e.id != last.id {
        var i :| 0 <= i < |init| && init[i] == e;
        assert entries[i] == e && entries[|init|] == last;
      }
      assert last in entries && Complete(last);
      PutCoherent(Load(init), last);
      assert Pointers(entries) == Pointers(init) + {last.pointer};
    }
  }

  lemma PutCoherent(t: Table, e: Entry)
    requires Coherent(t) && e.id != ""
    requires forall p :: p in t.byPointer ==> t.byPointer[p].id != e.id
    ensures Coherent(Put(t, e))
  {
  }

  /** Loading keeps every entry when no pointer is listed twice. */
  lemma {:induction false} LoadKeeps(entries: seq<Entry>)
    requires DistinctPointers(entries)
    ensures forall e :: e in entries ==> e.pointer in Load(entries).byPointer && Load(entries).byPointer[e.pointer] == e
  {
    if entries != [] {
      var init, last := entries[..|entries| - 1], entries[|entries| - 1];
      assert entries == init + [last];
      LoadKeeps(init);
      assert forall e :: e in init ==> e.pointer != last.pointer;
    }
  }

  /** `t'` has the pointers `added` besides those of `t`, whose entries are as they were. */
  ghost predicate Extends(t: Table, t': Table, added: set<Pointer>)
  {
    && t'.byPointer.Keys == t.byPointer.Keys + added
    && (forall q :: q in t.byPointer ==> t'.byPointer[q] == t.byPointer[q])
    && (forall q :: q in t'.byPointer && q !in t.byPointer && q.key != "" ==> t'.byPointer[q].id != "")
  }

  lemma AddKeeps(t: Table, p: Pointer)
    requires Coherent(t)
    ensures Coherent(Add(t, p)) && Extends(t, Add(t, p), {p})
  {
    UniqueIDIsFresh(p, t.idInUse.Keys);
  }

  lemma ExtendsTransitive(a: Table, b: Table, c: Table, first: set<Pointer>, second: set<Pointer>)
    requires Extends(a, b, first) && Extends(b, c, second)
    ensures Extends(a, c, first + second)
  {
  }

  lemma {:induction false} AddAllKeeps(t: Table, order: seq<Pointer>)
    requires Coherent(t)
    ensures Coherent(AddAll(t, order)) && Extends(t, AddAll(t, order), set p | p in order)
  {
    if order != [] {
      hide Add, Coherent, Extends;
      var init, last := order[..|order| - 1], order[|order| - 1];
      assert order == init + [last];
      assert (set p | p in order) == (set p | p in init) + {last};
      AddAllKeeps(t, init);
      AddKeeps(AddAll(t, init), last);
      ExtendsTransitive(t, AddAll(t, init), AddAll(t, order), set p | p in init, {last});
    }
  }

  lemma MergedEntries(entries: seq<Entry>, t: Table)
    requires Coherent(t) && multiset(entries) == multiset(t.byPointer.Values)
    ensures forall e :: e in entries <==> e.pointer in t.byPointer && t.byPointer[e.pointer] == e
    ensures Pointers(entries) == t.byPointer.Keys
    ensures DistinctIds(entries) && DistinctPointers(entries)
  {
    forall e ensures e in entries <==> e.pointer in t.byPointer && t.byPointer[e.pointer] == e {
      assert e in entries <==> e in multiset(entries);
      if e.pointer in t.byPointer && t.byPointer[e.pointer] == e {
        assert e in t.byPointer.Values;
      }
    }
    forall p | p in t.byPointer ensures p in Pointers(entries) {
      assert t.byPointer[p] in entries;
    }
    assert (set x | x in entries) == t.byPointer.Values by {
      assert forall x :: x in entries <==> x in multiset(entries);
    }
    NoRepeatsCounts(entries);
    forall i, j | 0 <= i < j < |entries|
      ensures entries[i].id != entries[j].id && entries[i].pointer != entries[j].pointer
    {
      assert entries[i] in entries && entries[j] in entries && entries[i] != entries[j];
    }
  }

  /** The output passes the parser again, names exactly the old and the written pointers, and no pointer twice. */
  lemma MergePointers(entries: seq<Entry>, existing: seq<Entry>, writes: Writes)
    requires Parseable(existing) && ValidWrites(writes) && IsMerge(entries, existing, writes)
    ensures Parseable(entries) && DistinctPointers(entries)
    ensures Pointers(entries) == Pointers(existing) + Written(writes)
  {
    var order :| InWriteOrder(order, writes) &&
                 multiset(entries) == multiset(AddAll(Load(existing), order).byPointer.Values);
    LoadCoherent(existing);
    AddAllKeeps(Load(existing), order);
    MergedEntries(entries, AddAll(Load(existing), order));
    assert (set p | p in order) == Written(writes);
    forall e | e in entries ensures Complete(e) {
      var t, t' := Load(existing), AddAll(Load(existing), order);
      if e.pointer in t.byPointer {
        assert t'.byPointer[e.pointer] == t.byPointer[e.pointer];
        assert e in existing;
      } else {
        assert e.pointer in Written(writes);
      }
    }
  }

  /** The output is in the order of the ids, byte by byte. */
  lemma MergeSortedByID(entries: seq<Entry>, existing: seq<Entry>, writes: Writes)
    requires IsMerge(entries, existing, writes)
    ensures forall i, j :: 0 <= i < j < |entries| ==> StringLe(entries[i].id, entries[j].id)
  {
    forall i, j | 0 <= i < j < |entries| ensures StringLe(entries[i].id, entries[j].id) {
      assert RecordLe(EntryKey(entries[i]), EntryKey(entries[j]));
      StringLeTotal(entries[i].id, entries[i].id);
    }
  }

  /** The ids that the pointers of a set have in a table. */
  function IdsOf(t: Table, pointers: set<Pointer>): set<string>
  {
    set p | p in pointers && p in t.byPointer :: t.byPointer[p].id
  }

  lemma AddedId(t: Table, p: Pointer, pointers: set<Pointer>)
    requires Coherent(t)
    ensures Add(t, p).idInUse.Keys == t.idInUse.Keys + IdsOf(Add(t, p), {p})
    ensures forall q :: q in pointers ==> q in t.byPointer ==>
              IdsOf(Add(t, p), pointers + {p}) >= {t.byPointer[q].id}
    ensures pointers <= t.byPointer.Keys ==>
              IdsOf(Add(t, p), pointers + {p}) == IdsOf(t, pointers) + IdsOf(Add(t, p), {p})
  {
    AddKeeps(t, p);
    hide UniqueID;
    var u := Add(t, p);
    if pointers <= t.byPointer.Keys {
      forall id ensures id in IdsOf(u, pointers + {p}) <==> id in IdsOf(t, pointers) + IdsOf(u, {p}) {
        if id in IdsOf(t, pointers) {
          var q :| q in pointers && q in t.byPointer && t.byPointer[q].id == id;
          assert u.byPointer[q].id == id;
        }
      }
    }
    forall q | q in pointers && q in t.byPointer ensures t.byPointer[q].id in IdsOf(u, pointers + {p}) {
      assert u.byPointer[q] == t.byPointer[q];
    }
  }

  /** The ids in use after some turns: those before, and those of the pointers whose turn it was. */
  lemma {:induction false} AddedIds(t: Table, order: seq<Pointer>)
    requires Coherent(t)
    ensures AddAll(t, order).idInUse.Keys == t.idInUse.Keys + IdsOf(AddAll(t, order), set p | p in order)
  {
    if order != [] {
      hide Add, Coherent, IdsOf;
      var init, last := order[..|order| - 1], order[|order| - 1];
      assert order == init + [last];
      assert (set p | p in order) == (set p | p in init) + {last};
      AddedIds(t, init);
      AddAllKeeps(t, init);
      AddedId(AddAll(t, init), last, set p | p in init);
    }
  }

  lemma {:induction false} LoadedIds(existing: seq<Entry>)
    requires Parseable(existing)
    ensures Load(existing).idInUse.Keys == set e | e in existing :: e.id
  {
    if existing != [] {
      var init, last := existing[..|existing| - 1], existing[|existing| - 1];
      assert existing == init + [last];
      assert forall e :: e in init ==> e in existing;
      assert forall i :: 0 <= i < |init| ==> init[i] == existing[i];
      LoadedIds(init);
      assert last in existing && Complete(last);
    }
  }

  /** Later turns leave earlier entries alone. */
  lemma {:induction false} LaterTurnsKeep(t: Table, order: seq<Pointer>, i: nat)
    requires Coherent(t) && i <= |order|
    ensures forall q :: q in AddAll(t, order[..i]).byPointer ==>
              q in AddAll(t, order).byPointer && AddAll(t, order).byPointer[q] == AddAll(t, order[..i]).byPointer[q]
    decreases |order| - i
  {
    hide Add, Coherent;
    if i < |order| {
      AddAllKeeps(t, order[..i]);
      assert order[..i + 1][..i] == order[..i];
      AddKeeps(AddAll(t, order[..i]), order[i]);
      LaterTurnsKeep(t, order, i + 1);
    } else {
      assert order[..i] == order;
    }
  }

  /** The ids taken before a turn: the existing ones, and those that earlier turns ended with. */
  function IdsTaken(entries: seq<Entry>, existing: seq<Entry>, earlier: seq<Pointer>): set<string>
  {
    (set e | e in existing :: e.id) + (set e | e in entries && e.pointer in earlier :: e.id)
  }

  lemma TakenByTurn(entries: seq<Entry>, existing: seq<Entry>, order: seq<Pointer>, i: nat)
    requires Parseable(existing) && i <= |order|
    requires var u := AddAll(Load(existing), order);
             forall e :: e in entries <==> e.pointer in u.byPointer && u.byPointer[e.pointer] == e
    ensures AddAll(Load(existing), order[..i]).idInUse.Keys == IdsTaken(entries, existing, order[..i])
  {
    hide Add, Coherent, Load, AddAll, Parseable;
    var t, done := Load(existing), order[..i];
    LoadCoherent(existing);
    LoadedIds(existing);
    AddedIds(t, done);
    AddAllKeeps(t, done);
    LaterTurnsKeep(t, order, i);
    forall p | p in AddAll(t, done).byPointer { PointerOf(t, done, p); }
    ListedIds(entries, AddAll(t, done), AddAll(t, order), done);
  }

  lemma ListedIds(entries: seq<Entry>, u: Table, all: Table, done: seq<Pointer>)
    requires forall e :: e in entries <==> e.pointer in all.byPointer && all.byPointer[e.pointer] == e
    requires forall p :: p in u.byPointer ==>
               u.byPointer[p].pointer == p && p in all.byPointer && all.byPointer[p] == u.byPointer[p]
    requires forall p :: p in done ==> p in u.byPointer
    ensures IdsOf(u, set p | p in done) == set e | e in entries && e.pointer in done :: e.id
  {
    var used, listed := IdsOf(u, set p | p in done), (set e | e in entries && e.pointer in done :: e.id);
    forall id ensures id in used <==> id in listed {
      if id in used {
        var p :| p in done && u.byPointer[p].id == id;
        assert u.byPointer[p] in entries;
      }
      if e :| e in entries && e.pointer in done && e.id == id {
        assert u.byPointer[e.pointer] == e;
      }
    }
  }

  lemma PointerOf(t: Table, done: seq<Pointer>, p: Pointer)
    requires Coherent(t) && p in AddAll(t, done).byPointer
    ensures AddAll(t, done).byPointer[p].pointer == p
  {
    hide AddAll;
    AddAllKeeps(t, done);
  }

  /** In the order of the writes, each new pointer gets the first free id, and no description. */
  lemma NewEntriesInTurn(entries: seq<Entry>, existing: seq<Entry>, writes: Writes) returns (order: seq<Pointer>)
    requires Parseable(existing) && IsMerge(entries, existing, writes)
    ensures InWriteOrder(order, writes)
    ensures forall i :: 0 <= i < |order| && order[i] !in Pointers(existing) ==>
              Entry(UniqueID(order[i], IdsTaken(entries, existing, order[..i])), "", order[i]) in entries
  {
    hide AddAll, Load, Coherent, UniqueID, IdsTaken, Pointers, Parseable;
    order :| InWriteOrder(order, writes) &&
             multiset(entries) == multiset(AddAll(Load(existing), order).byPointer.Values);
    LoadCoherent(existing);
    AddAllKeeps(Load(existing), order);
    MergedEntries(entries, AddAll(Load(existing), order));
    forall i | 0 <= i < |order| && order[i] !in Pointers(existing)
      ensures Entry(UniqueID(order[i], IdsTaken(entries, existing, order[..i])), "", order[i]) in entries
    {
      TakenByTurn(entries, existing, order, i);
      NewInTurn(Load(existing), order, i);
    }
  }

  lemma NewInTurn(t: Table, order: seq<Pointer>, i: nat)
    requires Coherent(t) && NoRepeats(order) && i < |order| && order[i] !in t.byPointer
    ensures var e := Entry(UniqueID(order[i], AddAll(t, order[..i]).idInUse.Keys), "", order[i]);
            order[i] in AddAll(t, order).byPointer && AddAll(t, order).byPointer[order[i]] == e
  {
    hide UniqueID, Coherent;
    AddAllKeeps(t, order[..i]);
    assert order[i] !in order[..i];
    assert order[..i + 1][..i] == order[..i];
    LaterTurnsKeep(t, order, i + 1);
  }

  /** With one entry per pointer, every existing entry survives unchanged, id and description included. */
  lemma MergeKeepsEntries(entries: seq<Entry>, existing: seq<Entry>, writes: Writes)
    requires Parseable(existing) && IsMerge(entries, existing, writes)
    ensures (forall e :: e in existing ==> e in entries) <==> DistinctPointers(existing)
  {
    var order :| InWriteOrder(order, writes) &&
                 multiset(entries) == multiset(AddAll(Load(existing), order).byPointer.Values);
    var t, t' := Load(existing), AddAll(Load(existing), order);
    LoadCoherent(existing);
    AddAllKeeps(t, order);
    MergedEntries(entries, t');
    if forall e :: e in existing ==> e in entries {
      forall i, j | 0 <= i < j < |existing| ensures existing[i].pointer != existing[j].pointer {
        assert existing[i] in entries && existing[j] in entries;
      }
    }
    if DistinctPointers(existing) {
      LoadKeeps(existing);
    }
  }

  /** A pointer listed twice under two ids passes the parser, and every merge drops the entry listed first. */
  lemma PointerListedTwice(
    p: Pointer, id: string, other: string, first: string, second: string, writes: Writes, entries: seq<Entry>)
    requires p.namespace != "" && p.name != "" && p.key != "" && id != "" && other != "" && id != other
    requires IsMerge(entries, [Entry(id, first, p), Entry(other, second, p)], writes)
    ensures Parseable([Entry(id, first, p), Entry(other, second, p)])
    ensures Entry(id, first, p) !in entries && Entry(other, second, p) in entries
  {
    hide AddAll, Coherent;
    var existing := [Entry(id, first, p), Entry(other, second, p)];
    var order :| InWriteOrder(order, writes) &&
                 multiset(entries) == multiset(AddAll(Load(existing), order).byPointer.Values);
    assert Load(existing).byPointer[p] == existing[1];
    LoadCoherent(existing);
    AddAllKeeps(Load(existing), order);
    MergedEntries(entries, AddAll(Load(existing), order));
  }

  /** Merging the same writes again changes nothing. */
  lemma MergeAgain(entries: seq<Entry>, again: seq<Entry>, existing: seq<Entry>, writes: Writes)
    requires Parseable(existing) && ValidWrites(writes)
    requires IsMerge(entries, existing, writes) && IsMerge(again, entries, writes)
    ensures again == entries
  {
    MergePointers(entries, existing, writes);
    var order :| InWriteOrder(order, writes) &&
                 multiset(again) == multiset(AddAll(Load(entries), order).byPointer.Values);
    LoadCoherent(entries);
    LoadKeeps(entries);
    var t := Load(entries);
    forall p | p in order ensures p in t.byPointer {
      assert p in Written(writes);
    }
    AddPresent(t, order);
    MergedEntries(again, t);
    assert forall e :: e in again <==> e in entries;
    SameEntriesSorted(again, entries);
  }

  lemma SameEntriesSorted(entries: seq<Entry>, other: seq<Entry>)
    requires DistinctPointers(entries) && DistinctPointers(other)
    requires forall e :: e in entries <==> e in other
    requires SortedBy(entries, EntryKey) && SortedBy(other, EntryKey)
    ensures entries == other
  {
    assert (set e | e in entries) == (set e | e in other);
    NoRepeatsCounts(entries);
    NoRepeatsCounts(other);
    KeysDiffer(entries);
    SortedUnique(entries, other, EntryKey);
  }

  lemma KeysDiffer(entries: seq<Entry>)
    requires DistinctPointers(entries)
    ensures forall x, y :: x in entries && y in entries && EntryKey(x) == EntryKey(y) ==> x == y
  {
    forall x, y | x in entries && y in entries && EntryKey(x) == EntryKey(y) ensures x == y {
      assert EntryKey(x)[1] == EntryKey(y)[1] && EntryKey(x)[2] == EntryKey(y)[2] && EntryKey(x)[3] == EntryKey(y)[3];
      var i :| 0 <= i < |entries| && entries[i] == x;
      var j :| 0 <= j < |entries| && entries[j] == y;
      assert x.pointer == y.pointer;
    }
  }

  lemma {:induction false} AddPresent(t: Table, order: seq<Pointer>)
    requires forall p :: p in order ==> p in t.byPointer
    ensures AddAll(t, order) == t
  {
    if order != [] {
      assert order == order[..|order| - 1] + [order[|order| - 1]];
      AddPresent(t, order[..|order| - 1]);
    }
  }

  /** The merge is a function of its inputs, although it walks maps in no fixed order. */
  lemma MergeIsDeterministic(entries: seq<Entry>, other: seq<Entry>, existing: seq<Entry>, writes: Writes)
    requires Parseable(existing) && IsMerge(entries, existing, writes) && IsMerge(other, existing, writes)
    ensures entries == other
  {
    hide Add, AddAll, Load, Coherent, Pointers;
    var order :| InWriteOrder(order, writes) &&
                 multiset(entries) == multiset(AddAll(Load(existing), order).byPointer.Values);
    var order2 :| InWriteOrder(order2, writes) &&
                  multiset(other) == multiset(AddAll(Load(existing), order2).byPointer.Values);
    assert (set p | p in order) == Written(writes) == (set p | p in order2);
    NoRepeatsCounts(order);
    NoRepeatsCounts(order2);
    forall x, y | x in order && y in order && WriteKey(x) == WriteKey(y) ensures x == y {
      assert WriteKey(x)[0] == WriteKey(y)[0] && WriteKey(x)[1] == WriteKey(y)[1];
      assert x in Written(writes) && y in Written(writes);
    }
    SortedUnique(order, order2, WriteKey);
    LoadCoherent(existing);
    AddAllKeeps(Load(existing), order);
    MergedEntries(entries, AddAll(Load(existing), order));
    KeysDiffer(entries);
    SortedUnique(entries, other, EntryKey);
  }

  // ---------------------------------------------------------------------------
  // The merge as a function
  // ---------------------------------------------------------------------------

  function OrderKey(p: Pointer): seq<string>
  {
    [p.name, p.key, p.namespace]
  }

  function FullKey(e: Entry): seq<string>
  {
    [e.id, e.pointer.namespace, e.pointer.name, e.pointer.key, e.description]
  }

  lemma KeysInjective()
    ensures Injective(OrderKey) && Injective(FullKey)
  {
    forall p: Pointer, q: Pointer | OrderKey(p) == OrderKey(q) ensures p == q {
      assert OrderKey(p)[0] == OrderKey(q)[0] && OrderKey(p)[1] == OrderKey(q)[1] && OrderKey(p)[2] == OrderKey(q)[2];
    }
    forall e: Entry, f: Entry | FullKey(e) == FullKey(f) ensures e == f {
      assert FullKey(e)[0] == FullKey(f)[0] && FullKey(e)[1] == FullKey(f)[1] && FullKey(e)[2] == FullKey(f)[2];
      assert FullKey(e)[3] == FullKey(f)[3] && FullKey(e)[4] == FullKey(f)[4];
    }
  }

  function Merged(existing: seq<Entry>, writes: Writes): seq<Entry>
  {
    KeysInjective();
    ListBy(AddAll(Load(existing), ListBy(Written(writes), OrderKey)).byPointer.Values, FullKey)
  }

  lemma {:induction false} ShorterKeySorts(a: seq<string>, b: seq<string>, n: nat)
    requires RecordLe(a, b) && n <= |a| && n <= |b|
    ensures RecordLe(a[..n], b[..n])
  {
    if n > 0 && a[0] == b[0] {
      ShorterKeySorts(a[1..], b[1..], n - 1);
      assert a[..n][1..] == a[1..][..n - 1] && b[..n][1..] == b[1..][..n - 1];
    }
  }

  lemma ListedWritesInOrder(writes: Writes)
    requires Injective(OrderKey)
    ensures InWriteOrder(ListBy(Written(writes), OrderKey), writes)
  {
    hide RecordLe, ListBy;
    var order := ListBy(Written(writes), OrderKey);
    ListByIsSorted(Written(writes), OrderKey);
    forall i, j | 0 <= i < j < |order| ensures RecordLe(WriteKey(order[i]), WriteKey(order[j])) {
      ShorterKeySorts(OrderKey(order[i]), OrderKey(order[j]), 2);
      assert OrderKey(order[i])[..2] == WriteKey(order[i]) && OrderKey(order[j])[..2] == WriteKey(order[j]);
    }
    assert (set p | p in order) == Written(writes);
    NoRepeatsCounts(order);
  }

  lemma ListedEntriesSorted(values: set<Entry>)
    requires Injective(FullKey)
    ensures SortedBy(ListBy(values, FullKey), EntryKey) && multiset(ListBy(values, FullKey)) == multiset(values)
  {
    hide RecordLe, ListBy;
    ListByIsSorted(values, FullKey);
    var entries := ListBy(values, FullKey);
    forall i, j | 0 <= i < j < |entries| ensures RecordLe(EntryKey(entries[i]), EntryKey(entries[j])) {
      ShorterKeySorts(FullKey(entries[i]), FullKey(entries[j]), 4);
      assert FullKey(entries[i])[..4] == EntryKey(entries[i]) && FullKey(entries[j])[..4] == EntryKey(entries[j]);
    }
  }

  lemma MergedIsMerge(existing: seq<Entry>, writes: Writes)
    ensures IsMerge(Merged(existing, writes), existing, writes)
  {
    KeysInjective();
    ListedWritesInOrder(writes);
    ListedEntriesSorted(AddAll(Load(existing), ListBy(Written(writes), OrderKey)).byPointer.Values);
  }
}
