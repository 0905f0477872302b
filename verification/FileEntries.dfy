/** The ordered set behind the file database, and the map it refines. */
module FileEntries {
  import opened Bytes
  import opened Paths

  datatype FileEntry = FileEntry(id: WStr, link: Path, icon: Path, exe: Path, args: WStr)

  function Bare(id: WStr): FileEntry {
    FileEntry(id, [], [], [], [])
  }

  /** std::set<fileEntry> in iteration order. */
  type Entries = seq<FileEntry>

  ghost predicate Sorted(db: Entries) {
    forall i, j | 0 <= i < j < |db| :: Less(db[i].id, db[j].id)
  }

  /** The first position whose id is not less than the key. */
  function LowerBound(db: Entries, key: WStr): (i: nat)
    ensures i <= |db|
    ensures forall j | 0 <= j < i :: Less(db[j].id, key)
    ensures i < |db| ==> !Less(db[i].id, key)
  {
    if db == [] || !Less(db[0].id, key) then 0 else 1 + LowerBound(db[1..], key)
  }

  /** find: the entry equivalent to the key under `<`. */
  function Find(db: Entries, key: WStr): Option<FileEntry> {
    var i := LowerBound(db, key);
    if i < |db| && !Less(key, db[i].id) then Some(db[i]) else None
  }

  /** insert: no effect when an equivalent entry is there already. */
  function Insert(db: Entries, e: FileEntry): Entries {
    var i := LowerBound(db, e.id);
    if i < |db| && !Less(e.id, db[i].id) then db else db[..i] + [e] + db[i..]
  }

  function Erase(db: Entries, key: WStr): Entries {
    var i := LowerBound(db, key);
    if i < |db| && !Less(key, db[i].id) then db[..i] + db[i + 1..] else db
  }

  /** OnFileAdded: whether the key now stands for exactly this data, and the set after it. */
  function Added(db: Entries, e: FileEntry): (Entries, bool) {
    var db' := Insert(db, e);
    (db', Find(db, e.id).None? || Find(db, e.id).value == e)
  }

  // The map

  function AsMap(db: Entries): map<WStr, FileEntry> {
    if db == [] then map[] else AsMap(db[1..])[db[0].id := db[0]]
  }

  function Ids(db: Entries): set<WStr> {
    set e | e in db :: e.id
  }

  lemma SortedRest(db: Entries)
    requires Sorted(db) && db != []
    ensures Sorted(db[1..]) && forall e | e in db[1..] :: Less(db[0].id, e.id) && e.id != db[0].id
  {
    forall e | e in db[1..]
      ensures Less(db[0].id, e.id) && e.id != db[0].id
    {
      var k :| 0 <= k < |db[1..]| && db[1..][k] == e;
      assert db[k + 1] == e;
      LessTotal(db[0].id, e.id);
    }
  }

  lemma IdsCons(db: Entries)
    requires db != []
    ensures Ids(db) == {db[0].id} + Ids(db[1..])
  {
    assert db == [db[0]] + db[1..];
  }

  lemma {:induction false} AsMapIs(db: Entries)
    requires Sorted(db)
    ensures AsMap(db).Keys == Ids(db)
    ensures forall e | e in db :: e.id in AsMap(db) && AsMap(db)[e.id] == e
    decreases |db|
  {
    if db != [] {
      hide Sorted;
      SortedRest(db);
      IdsCons(db);
      AsMapIs(db[1..]);
      assert db == [db[0]] + db[1..];
    }
  }

  /** Where an equivalent entry is, if there is one: at the lower bound and nowhere else. */
  lemma FindsKey(db: Entries, key: WStr)
    requires Sorted(db)
    ensures var i := LowerBound(db, key);
            && (i < |db| && !Less(key, db[i].id) <==> key in Ids(db))
            && (key in Ids(db) ==> db[i].id == key)
            && (forall j | 0 <= j < |db| && j != i :: db[j].id != key)
            && (forall j | i < j < |db| :: Less(key, db[j].id))
  {
    var i := LowerBound(db, key);
    if i < |db| {
      LessTotal(db[i].id, key);
    }
    forall j | 0 <= j < |db| && j != i
      ensures db[j].id != key && (i < j ==> Less(key, db[j].id))
    {
      LessTotal(db[j].id, key);
      if i < j {
        assert Less(db[i].id, db[j].id);
        if Less(key, db[i].id) {
          LessTransitive(key, db[i].id, db[j].id);
        }
      }
    }
    if key in Ids(db) {
      var e :| e in db && e.id == key;
      var k :| 0 <= k < |db| && db[k] == e;
      assert k == i;
    }
  }

  lemma FindRefines(db: Entries, key: WStr)
    requires Sorted(db)
    ensures Find(db, key) == if key in AsMap(db) then Some(AsMap(db)[key]) else None
    ensures key in AsMap(db) <==> key in Ids(db)
  {
    AsMapIs(db);
    FindsKey(db, key);
  }

  lemma IdsOfMembers(db: Entries, other: Entries, key: WStr)
    requires forall x :: x in other <==> x in db && x.id != key
    ensures Ids(other) == Ids(db) - {key}
  {
  }

  lemma InsertMembers(db: Entries, i: nat, e: FileEntry)
    requires i <= |db|
    ensures forall x :: x in db[..i] + [e] + db[i..] <==> x in db || x == e
    ensures Ids(db[..i] + [e] + db[i..]) == Ids(db) + {e.id}
  {
    assert db == db[..i] + db[i..];
  }

  lemma InsertSorted(db: Entries, e: FileEntry)
    requires Sorted(db)
    ensures Sorted(Insert(db, e)) && Ids(Insert(db, e)) == Ids(db) + {e.id}
    ensures e.id in Ids(db) ==> Insert(db, e) == db
    ensures e.id !in Ids(db) ==> forall x :: x in Insert(db, e) <==> x in db || x == e
  {
    hide Ids;
    FindsKey(db, e.id);
    var i := LowerBound(db, e.id);
    if e.id !in Ids(db) {
      assert i < |db| ==> Less(e.id, db[i].id);
      InsertMembers(db, i, e);
    } else {
      assert Ids(db) == Ids(db) + {e.id};
    }
  }

  lemma EraseMembers(db: Entries, i: nat)
    requires Sorted(db) && i < |db|
    ensures forall x :: x in db[..i] + db[i + 1..] <==> x in db && x.id != db[i].id
  {
    var after := db[..i] + db[i + 1..];
    forall x
      ensures x in after <==> x in db && x.id != db[i].id
    {
      if x in db {
        var k :| 0 <= k < |db| && db[k] == x;
        LessTotal(db[k].id, db[i].id);
        if k < i {
          assert after[k] == x;
        } else if k > i {
          assert after[k - 1] == x;
        } else {
          assert x.id == db[i].id;
        }
      }
      if x in after {
        var k :| 0 <= k < |after| && after[k] == x;
        var at := if k < i then k else k + 1;
        assert db[at] == x;
        assert Less(db[if at < i then at else i].id, db[if at < i then i else at].id);
        LessTotal(db[at].id, db[i].id);
      }
    }
  }

  lemma EraseSorted(db: Entries, key: WStr)
    requires Sorted(db)
    ensures Sorted(Erase(db, key)) && Ids(Erase(db, key)) == Ids(db) - {key}
    ensures forall x :: x in Erase(db, key) <==> x in db && x.id != key
  {
    hide Sorted, Less;
    EraseKeepsSorted(db, key);
    FindsKey(db, key);
    var i := LowerBound(db, key);
    if key in Ids(db) {
      EraseMembers(db, i);
    } else {
      assert forall x | x in db :: x.id in Ids(db);
    }
    IdsOfMembers(db, Erase(db, key), key);
  }

  lemma EraseKeepsSorted(db: Entries, key: WStr)
    requires Sorted(db)
    ensures Sorted(Erase(db, key))
  {
    hide Less;
  }

  /** Two sorted sets with the same members are the same sequence of lookups: the map is their members. */
  lemma MapOfMembers(db: Entries, m: map<WStr, FileEntry>)
    requires Sorted(db)
    requires forall e :: e in db <==> e.id in m && m[e.id] == e
    requires forall k | k in m :: m[k].id == k
    ensures AsMap(db) == m
  {
    AsMapIs(db);
    forall k
      ensures k in AsMap(db) <==> k in m
      ensures k in m ==> AsMap(db)[k] == m[k]
    {
      if k in m {
        assert m[k] in db;
      }
    }
  }

  lemma InsertRefines(db: Entries, e: FileEntry)
    requires Sorted(db)
    ensures AsMap(Insert(db, e)) == if e.id in AsMap(db) then AsMap(db) else AsMap(db)[e.id := e]
  {
    AsMapIs(db);
    InsertSorted(db, e);
    var m := AsMap(db);
    if e.id !in m {
      forall x
        ensures x in Insert(db, e) <==> x.id in m[e.id := e] && m[e.id := e][x.id] == x
      {
        MemberIsMapped(db, x);
      }
      forall k | k in m
        ensures m[k].id == k
      {
      }
      MapOfMembers(Insert(db, e), m[e.id := e]);
    }
  }

  lemma MemberIsMapped(db: Entries, x: FileEntry)
    requires Sorted(db)
    ensures x in db <==> x.id in AsMap(db) && AsMap(db)[x.id] == x
  {
    AsMapIs(db);
    if x.id in AsMap(db) {
      var e :| e in db && e.id == x.id;
    }
  }

  lemma EraseRefines(db: Entries, key: WStr)
    requires Sorted(db)
    ensures AsMap(Erase(db, key)) == AsMap(db) - {key}
  {
    AsMapIs(db);
    EraseSorted(db, key);
    forall x
      ensures x in Erase(db, key) <==> x.id in AsMap(db) - {key} && (AsMap(db) - {key})[x.id] == x
    {
      MemberIsMapped(db, x);
    }
    MapOfMembers(Erase(db, key), AsMap(db) - {key});
  }

  // Every sequence of operations

  datatype Op = Add(e: FileEntry) | Remove(key: WStr) | Clear

  function Apply(db: Entries, op: Op): Entries {
    match op
    case Add(e) => Insert(db, e)
    case Remove(key) => Erase(db, key)
    case Clear => []
  }

  function ApplyAll(ops: seq<Op>): Entries {
    if ops == [] then [] else Apply(ApplyAll(ops[..|ops| - 1]), ops[|ops| - 1])
  }

  /** The reference: what a key stands for is the first add since it was last removed or everything was cleared. */
  function Stands(ops: seq<Op>, key: WStr): Option<FileEntry> {
    if ops == [] then None
    else
      var before := Stands(ops[..|ops| - 1], key);
      match ops[|ops| - 1]
      case Add(e) => if e.id == key && before.None? then Some(e) else before
      case Remove(k) => if k == key then None else before
      case Clear => None
  }

  /** For every sequence of operations the ordered set answers every lookup as the reference does. */
  lemma {:induction false} SetRefinesMap(ops: seq<Op>, key: WStr)
    ensures Sorted(ApplyAll(ops)) && Find(ApplyAll(ops), key) == Stands(ops, key)
    decreases |ops|
  {
    if ops != [] {
      var front := ops[..|ops| - 1];
      SetRefinesMap(front, key);
      var db := ApplyAll(front);
      FindRefines(db, key);
      match ops[|ops| - 1]
      case Add(e) =>
        InsertSorted(db, e);
        InsertRefines(db, e);
        FindRefines(Insert(db, e), key);
        AsMapIs(db);
      case Remove(k) =>
        EraseSorted(db, k);
        EraseRefines(db, k);
        FindRefines(Erase(db, k), key);
      case Clear =>
    }
  }

  /** OnFileAdded on a key that is there: an equal add is accepted and a differing one refused, both without change. */
  lemma ReAdd(db: Entries, e: FileEntry)
    requires Sorted(db)
    ensures var (db', ok) := Added(db, e);
            && Sorted(db') && (ok <==> Find(db', e.id) == Some(e))
            && (Find(db, e.id).Some? ==> db' == db && (ok <==> Find(db, e.id).value == e))
            && (Find(db, e.id).None? ==> ok && AsMap(db') == AsMap(db)[e.id := e])
  {
    FindRefines(db, e.id);
    InsertSorted(db, e);
    InsertRefines(db, e);
    FindRefines(Insert(db, e), e.id);
  }
}
