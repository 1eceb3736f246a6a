/**
 The two entity stores: the simulated one keeps nested maps, the file-backed one
 keeps each entity in a file named by its id in decimal. Over every sequence of
 calls from an empty root they give the same replies, lists up to their order.
 */
module EntityStorage {
  import opened Options
  import opened Decimal

  type Id = Int32

  // Resource to id to data.
  type Entities = map<string, map<Id, string>>

  // Resource directory to file name to content.
  type Directories = map<string, map<string, string>>

  datatype Call =
    | Create(resource: string, data: string)
    | Retrieve(resource: string, id: Id)
    | Update(resource: string, id: Id, data: string)
    | Remove(resource: string, id: Id)
    | List(resource: string)

  datatype Reply =
    | Created(id: Option<Id>)
    | Retrieved(data: Option<string>)
    | Updated(ok: bool)
    | Removed(ok: bool)
    | Listed(ids: seq<Id>)

  // ---------------------------------------------------------------------------
  // The next id.

  /** The largest id, or 0 if there is no positive one. */
  ghost predicate IsMax(m: int, ids: set<Id>) {
    0 <= m && (forall id :: id in ids ==> id <= m) && (m == 0 || m in ids)
  }

  ghost function MaxId(ids: set<Id>): (m: Id)
    ensures IsMax(m, ids)
  {
    if ids == {} then 0
    else
      var id :| id in ids;
      var m := MaxId(ids - {id});
      assert forall other :: other in ids ==> other == id || other in ids - {id};
      if id > m then id else m
  }

  /** One above the largest id, unless that is the largest integer. */
  ghost function NextId(ids: set<Id>): Option<Id> {
    if MaxId(ids) == INT_MAX then None else Some(MaxId(ids) + 1)
  }

  /** The result of the id search, where -1 stands for no id. */
  ghost predicate IsNext(id: int, ids: set<Id>) {
    match NextId(ids)
    case None => id == -1
    case Some(next) => id == next
  }

  lemma MaxIsNext(m: Id, ids: set<Id>)
    requires IsMax(m, ids)
    ensures IsNext(if m >= INT_MAX then -1 else m + 1, ids)
  {
  }

  /** Allocation is fresh: above every live id, and refused only when the last id is live. */
  lemma NextIdIsFresh(ids: set<Id>)
    ensures NextId(ids) == None <==> INT_MAX in ids
    ensures NextId(ids).Some? ==>
              var id := NextId(ids).value;
              && id >= 1 && id !in ids && (forall other :: other in ids ==> other < id)
              && (id == 1 || id - 1 in ids)
  {
  }

  // ---------------------------------------------------------------------------
  // The simulated store.

  function IdsIn(s: Entities, resource: string): set<Id> {
    if resource in s then s[resource].Keys else {}
  }

  function Lookup(s: Entities, resource: string, id: Id): Option<string> {
    if resource in s && id in s[resource] then Some(s[resource][id]) else None
  }

  function Put(s: Entities, resource: string, id: Id, data: string): Entities {
    s[resource := (if resource in s then s[resource] else map[])[id := data]]
  }

  function Drop(s: Entities, resource: string, id: Id): Entities {
    if resource in s then s[resource := s[resource] - {id}] else s
  }

  predicate NoDuplicates<T(==)>(xs: seq<T>) {
    forall i, j :: 0 <= i < j < |xs| ==> xs[i] != xs[j]
  }

  ghost predicate Enumerates<T(!new)>(xs: seq<T>, s: set<T>) {
    NoDuplicates(xs) && forall x :: x in xs <==> x in s
  }

  predicate Ascending(ids: seq<Id>) {
    forall i, j :: 0 <= i < j < |ids| ==> ids[i] < ids[j]
  }

  /** A listing of the map store comes in the order of its keys. */
  ghost predicate SimStep(s: Entities, c: Call, s': Entities, r: Reply) {
    match c
    case Create(resource, data) =>
      var next := NextId(IdsIn(s, resource));
      r == Created(next) && s' == if next.None? then s else Put(s, resource, next.value, data)
    case Retrieve(resource, id) =>
      s' == s && r == Retrieved(Lookup(s, resource, id))
    case Update(resource, id, data) =>
      s' == Put(s, resource, id, data) && r == Updated(true)
    case Remove(resource, id) =>
      s' == Drop(s, resource, id) && r == Removed(Lookup(s, resource, id).Some?)
    case List(resource) =>
      s' == s && r.Listed? && Enumerates(r.ids, IdsIn(s, resource)) && Ascending(r.ids)
  }

  ghost predicate IsLeast(id: Id, ids: set<Id>) {
    id in ids && forall other :: other in ids ==> id <= other
  }

  lemma {:induction false} LeastExists(ids: set<Id>) returns (least: Id)
    requires ids != {}
    ensures IsLeast(least, ids)
  {
    least :| least in ids;
    var rest := ids - {least};
    if rest != {} {
      var other := LeastExists(rest);
      assert ids == rest + {least};
      least := if other < least then other else least;
    } else {
      assert ids == {least};
    }
  }

  /** A listing in progress: the ids still left are all above those listed. */
  ghost predicate Listing(ids: seq<Id>, all: set<Id>, left: set<Id>) {
    && left <= all && Enumerates(ids, all - left) && Ascending(ids)
    && forall listed, other :: listed in ids && other in left ==> listed < other
  }

  lemma ListingStarts(all: set<Id>)
    ensures Listing([], all, all)
  {
    assert all - all == {};
  }

  /** Taking the least id left extends the listing. */
  lemma ListingGoesOn(ids: seq<Id>, all: set<Id>, left: set<Id>, id: Id)
    requires Listing(ids, all, left)
    requires IsLeast(id, left)
    ensures Listing(ids + [id], all, left - {id})
  {
    assert forall i :: 0 <= i < |ids| ==> ids[i] in ids;
  }

  lemma ListingEnds(ids: seq<Id>, all: set<Id>)
    requires Listing(ids, all, {})
    ensures Enumerates(ids, all) && Ascending(ids)
  {
    assert all - {} == all;
  }

  class SimEntityStorage {
    var storage: Entities

    constructor ()
      ensures storage == map[]
    {
      storage := map[];
    }

    method GetNextAvailableId(resource: string) returns (id: int)
      ensures IsNext(id, IdsIn(storage, resource))
    {
      if resource !in storage {
        MaxIsNext(0, {});
        return 1;
      }
      var maxId := 0;
      var left := storage[resource].Keys;
      ghost var seen: set<Id> := {};
      while left != {}
        invariant left + seen == storage[resource].Keys
        invariant INT_MIN <= maxId <= INT_MAX && IsMax(maxId, seen)
        decreases left
      {
        var entity :| entity in left;
        if entity > maxId {
          maxId := entity;
        }
        left, seen := left - {entity}, seen + {entity};
      }
      assert seen == storage[resource].Keys;
      MaxIsNext(maxId, seen);
      if maxId >= INT_MAX {
        return -1;
      }
      return maxId + 1;
    }

    method Create(resource: string, data: string) returns (r: Option<Id>)
      modifies this
      ensures SimStep(old(storage), Call.Create(resource, data), storage, Created(r))
    {
      var nextId := GetNextAvailableId(resource);
      NextIdIsFresh(IdsIn(storage, resource));
      if nextId == -1 {
        return None;
      }
      if resource !in storage {
        storage := storage[resource := map[nextId := data]];
        return Some(nextId);
      }
      var entities: map<Id, string> := storage[resource];
      storage := storage[resource := entities[nextId := data]];
      return Some(nextId);
    }

    method Retrieve(resource: string, id: Id) returns (r: Option<string>)
      ensures SimStep(storage, Call.Retrieve(resource, id), storage, Retrieved(r))
    {
      if resource in storage {
        if id in storage[resource] {
          return Some(storage[resource][id]);
        }
      }
      return None;
    }

    method Update(resource: string, id: Id, data: string) returns (r: bool)
      modifies this
      ensures SimStep(old(storage), Call.Update(resource, id, data), storage, Updated(r))
    {
      if resource in storage {
        var entities: map<Id, string> := storage[resource];
        storage := storage[resource := entities[id := data]];
      } else {
        storage := storage[resource := map[id := data]];
      }
      return true;
    }

    method Remove(resource: string, id: Id) returns (r: bool)
      modifies this
      ensures SimStep(old(storage), Call.Remove(resource, id), storage, Removed(r))
    {
      if resource in storage {
        if id in storage[resource] {
          storage := storage[resource := storage[resource] - {id}];
          return true;
        }
        assert storage[resource] - {id} == storage[resource];
        assert storage[resource := storage[resource]] == storage;
      }
      return false;
    }

    method List(resource: string) returns (ids: seq<Id>)
      ensures SimStep(storage, Call.List(resource), storage, Listed(ids))
    {
      hide Listing, Enumerates, Ascending;
      ghost var all := IdsIn(storage, resource);
      ids := [];
      ListingStarts(all);
      if resource in storage {
        var left := storage[resource].Keys;
        while left != {}
          invariant Listing(ids, all, left)
          decreases left
        {
          ghost var least := LeastExists(left);
          var entity :| entity in left && forall other :: other in left ==> entity <= other;
          ListingGoesOn(ids, all, left, entity);
          ids := ids + [entity];
          left := left - {entity};
        }
      }
      ListingEnds(ids, all);
    }
  }

  // ---------------------------------------------------------------------------
  // The file-backed store.

  /** The ids of the files whose names start with an integer. */
  function IdsOf(names: set<string>): set<Id> {
    set name | name in names && Stoi(name).Some? :: Stoi(name).value.value
  }

  function ParseAll(names: seq<string>): seq<Id> {
    if names == [] then []
    else
      var n := |names| - 1;
      ParseAll(names[..n]) + if Stoi(names[n]).Some? then [Stoi(names[n]).value.value] else []
  }

  function Files(d: Directories, resource: string): map<string, string> {
    if resource in d then d[resource] else map[]
  }

  /** The directory is created if it is missing. */
  function WithDirectory(d: Directories, resource: string): Directories {
    d[resource := Files(d, resource)]
  }

  function Write(d: Directories, resource: string, id: Id, data: string): Directories {
    d[resource := Files(d, resource)[ToString(id) := data]]
  }

  /** `opens` tells whether the file to write could be opened. */
  ghost predicate RealStep(d: Directories, c: Call, opens: bool, d': Directories, r: Reply) {
    match c
    case Create(resource, data) =>
      var next := NextId(IdsOf(Files(d, resource).Keys));
      if next.None? || !opens then r == Created(None) && d' == WithDirectory(d, resource)
      else r == Created(next) && d' == Write(d, resource, next.value, data)
    case Retrieve(resource, id) =>
      var files := Files(d, resource);
      d' == d && r == Retrieved(if ToString(id) in files then Some(files[ToString(id)]) else None)
    case Update(resource, id, data) =>
      r == Updated(opens) && d' == if opens then Write(d, resource, id, data) else WithDirectory(d, resource)
    case Remove(resource, id) =>
      var there := ToString(id) in Files(d, resource);
      r == Removed(there) && d' == if there then d[resource := d[resource] - {ToString(id)}] else d
    case List(resource) =>
      d' == d && r.Listed? && exists names :: Enumerates(names, Files(d, resource).Keys) && r.ids == ParseAll(names)
  }

  class RealEntityStorage {
    var directories: Directories

    constructor ()
      ensures directories == map[]
    {
      directories := map[];
    }

    /** The directory iterator: every file name once, in no particular order. */
    method DirectoryEntries(resource: string) returns (names: seq<string>)
      ensures Enumerates(names, Files(directories, resource).Keys)
    {
      names := [];
      var left := Files(directories, resource).Keys;
      while left != {}
        invariant left <= Files(directories, resource).Keys
        invariant Enumerates(names, Files(directories, resource).Keys - left)
        decreases left
      {
        var name :| name in left;
        names := names + [name];
        left := left - {name};
      }
    }

    method GetNextAvailableId(resource: string) returns (id: int)
      ensures IsNext(id, IdsOf(Files(directories, resource).Keys))
    {
      hide Stoi;
      var names := DirectoryEntries(resource);
      ghost var files := Files(directories, resource).Keys;
      var maxId := 0;
      for i := 0 to |names|
        invariant INT_MIN <= maxId <= INT_MAX
        invariant IsMax(maxId, IdsOf(set j | 0 <= j < i :: names[j]))
      {
        ghost var before := set j | 0 <= j < i :: names[j];
        assert (set j | 0 <= j < i + 1 :: names[j]) == before + {names[i]};
        IdsOfMore(before, names[i]);
        var parsed := Stoi(names[i]);
        if parsed.Some? {
          if parsed.value.value > maxId {
            maxId := parsed.value.value;
          }
        }
      }
      assert (set j | 0 <= j < |names| :: names[j]) == files;
      MaxIsNext(maxId, IdsOf(files));
      if maxId >= INT_MAX {
        return -1;
      }
      return maxId + 1;
    }

    method Create(resource: string, data: string, opens: bool) returns (r: Option<Id>)
      modifies this
      ensures RealStep(old(directories), Call.Create(resource, data), opens, directories, Created(r))
    {
      directories := directories[resource := Files(directories, resource)];
      var id := GetNextAvailableId(resource);
      if id < 0 {
        return None;
      }
      if !opens {
        return None;
      }
      directories := directories[resource := directories[resource][ToString(id) := data]];
      return Some(id);
    }

    method Retrieve(resource: string, id: Id) returns (r: Option<string>)
      ensures RealStep(directories, Call.Retrieve(resource, id), true, directories, Retrieved(r))
    {
      if resource in directories && ToString(id) in directories[resource] {
        return Some(directories[resource][ToString(id)]);
      }
      return None;
    }

    method Update(resource: string, id: Id, data: string, opens: bool) returns (r: bool)
      modifies this
      ensures RealStep(old(directories), Call.Update(resource, id, data), opens, directories, Updated(r))
    {
      directories := directories[resource := Files(directories, resource)];
      if !opens {
        return false;
      }
      directories := directories[resource := directories[resource][ToString(id) := data]];
      return true;
    }

    method Remove(resource: string, id: Id) returns (r: bool)
      modifies this
      ensures RealStep(old(directories), Call.Remove(resource, id), true, directories, Removed(r))
    {
      if resource in directories && ToString(id) in directories[resource] {
        directories := directories[resource := directories[resource] - {ToString(id)}];
        return true;
      }
      return false;
    }

    method List(resource: string) returns (ids: seq<Id>)
      ensures RealStep(directories, Call.List(resource), true, directories, Listed(ids))
    {
      ids := [];
      var names := [];
      if resource in directories {
        names := DirectoryEntries(resource);
        for i := 0 to |names|
          invariant ids == ParseAll(names[..i])
        {
          assert names[..i + 1][..i] == names[..i];
          var parsed := Stoi(names[i]);
          if parsed.Some? {
            ids := ids + [parsed.value.value];
          }
        }
        assert names[..|names|] == names;
      }
      assert Enumerates(names, Files(directories, resource).Keys);
    }
  }

  lemma IdsOfMore(names: set<string>, name: string)
    ensures IdsOf(names + {name})
            == IdsOf(names) + if Stoi(name).Some? then {Stoi(name).value.value} else {}
  {
    hide Stoi;
  }

  // ---------------------------------------------------------------------------
  // The simulation.

  /** The name is the canonical decimal of the id it parses to. */
  predicate Canonical(name: string) {
    Stoi(name).Some? && ToString(Stoi(name).value.value) == name
  }

  function IdOf(name: string): Id
    requires Canonical(name)
  {
    Stoi(name).value.value
  }

  /** The files are named by exactly the canonical decimals of the live ids. */
  ghost predicate SameFiles(files: map<string, string>, entities: map<Id, string>) {
    && (forall name :: name in files ==>
          Canonical(name) && IdOf(name) in entities && files[name] == entities[IdOf(name)])
    && (forall id :: id in entities ==> ToString(id) in files)
  }

  function EntitiesAt(s: Entities, resource: string): map<Id, string> {
    if resource in s then s[resource] else map[]
  }

  /** A missing directory and an empty one are the same resource. */
  ghost predicate Related(d: Directories, s: Entities) {
    forall resource :: SameFiles(Files(d, resource), EntitiesAt(s, resource))
  }

  predicate SameReply(a: Reply, b: Reply) {
    if a.Listed? && b.Listed? then multiset(a.ids) == multiset(b.ids) else a == b
  }

  lemma NameOfId(id: Id)
    ensures Canonical(ToString(id)) && IdOf(ToString(id)) == id
  {
    StoiReadsToString(id);
  }

  lemma SameIds(files: map<string, string>, entities: map<Id, string>)
    requires SameFiles(files, entities)
    ensures IdsOf(files.Keys) == entities.Keys
  {
    hide Stoi;
    forall id | id in entities
      ensures id in IdsOf(files.Keys)
    {
      NameOfId(id);
    }
  }

  lemma SameAfterWrite(files: map<string, string>, entities: map<Id, string>, id: Id, data: string)
    requires SameFiles(files, entities)
    ensures SameFiles(files[ToString(id) := data], entities[id := data])
  {
    hide Stoi, ToString;
    NameOfId(id);
    assert forall name :: name in files && IdOf(name) == id ==> name == ToString(id);
  }

  lemma SameAfterRemove(files: map<string, string>, entities: map<Id, string>, id: Id)
    requires SameFiles(files, entities)
    ensures SameFiles(files - {ToString(id)}, entities - {id})
  {
    hide Stoi, ToString;
    NameOfId(id);
    forall other | other in entities - {id}
      ensures ToString(other) in files - {ToString(id)}
    {
      NameOfId(other);
    }
  }

  lemma {:induction false} ParseAllCanonical(names: seq<string>)
    requires forall i :: 0 <= i < |names| ==> Canonical(names[i])
    ensures |ParseAll(names)| == |names|
    ensures forall i :: 0 <= i < |names| ==> ParseAll(names)[i] == IdOf(names[i])
  {
    hide Stoi;
    if names != [] {
      ParseAllCanonical(names[..|names| - 1]);
    }
  }

  /** Listing the files in any order enumerates the live ids. */
  lemma ListedIds(files: map<string, string>, entities: map<Id, string>, names: seq<string>)
    requires SameFiles(files, entities) && Enumerates(names, files.Keys)
    ensures Enumerates(ParseAll(names), entities.Keys)
  {
    hide Stoi, ParseAll;
    forall i | 0 <= i < |names|
      ensures Canonical(names[i]) && IdOf(names[i]) in entities
    {
      assert names[i] in files;
    }
    ParseAllCanonical(names);
    var ids := ParseAll(names);
    forall id | id in entities
      ensures id in ids
    {
      NameOfId(id);
      var i :| 0 <= i < |names| && names[i] == ToString(id);
      assert ids[i] == id;
    }
  }

  /** The listing follows the names and leaves out those that are no integer. */
  lemma ListingFollowsNames(names: seq<string>, name: string)
    ensures ParseAll([]) == []
    ensures Stoi(name).Some? ==> ParseAll(names + [name]) == ParseAll(names) + [Stoi(name).value.value]
    ensures Stoi(name).None? ==> ParseAll(names + [name]) == ParseAll(names)
  {
    hide Stoi;
    assert (names + [name])[..|names|] == names;
  }

  /** A creation or an update makes the directory, and touches no other. */
  lemma DirectoryIsMade(d: Directories, c: Call, opens: bool, d': Directories, r: Reply)
    requires (c.Create? || c.Update?) && RealStep(d, c, opens, d', r)
    ensures c.resource in d' && forall other :: other != c.resource ==>
              (other in d' <==> other in d) && (other in d ==> d'[other] == d[other])
    ensures !opens ==> d'[c.resource] == if c.resource in d then d[c.resource] else map[]
    ensures opens && c.Update? ==> ToString(c.id) in d'[c.resource] && d'[c.resource][ToString(c.id)] == c.data
    ensures opens && c.Create? && r.id.Some? ==>
              ToString(r.id.value) in d'[c.resource] && d'[c.resource][ToString(r.id.value)] == c.data
  {
    hide ToString, IdsOf;
  }

  lemma {:induction false} CountOnce<T>(xs: seq<T>, x: T)
    requires NoDuplicates(xs)
    ensures multiset(xs)[x] == if x in xs then 1 else 0
  {
    if xs != [] {
      var n := |xs| - 1;
      CountOnce(xs[..n], x);
      assert xs == xs[..n] + [xs[n]];
    }
  }

  lemma EnumerationsAgree<T(!new)>(a: seq<T>, b: seq<T>, s: set<T>)
    requires Enumerates(a, s) && Enumerates(b, s)
    ensures multiset(a) == multiset(b)
  {
    forall x: T
      ensures multiset(a)[x] == multiset(b)[x]
    {
      CountOnce(a, x);
      CountOnce(b, x);
      assert x in a <==> x in b;
    }
  }

  /** Only the resource of a call changes. */
  lemma RelatedAfter(d: Directories, s: Entities, resource: string, d': Directories, s': Entities)
    requires Related(d, s)
    requires SameFiles(Files(d', resource), EntitiesAt(s', resource))
    requires forall other :: other != resource ==> Files(d', other) == Files(d, other)
    requires forall other :: other != resource ==> EntitiesAt(s', other) == EntitiesAt(s, other)
    ensures Related(d', s')
  {
    hide SameFiles;
    forall other
      ensures SameFiles(Files(d', other), EntitiesAt(s', other))
    {
      assert SameFiles(Files(d, other), EntitiesAt(s, other));
    }
  }

  lemma OthersStay(d: Directories, s: Entities, c: Call, opens: bool, d': Directories, q: Reply, s': Entities, r: Reply)
    requires RealStep(d, c, opens, d', q) && SimStep(s, c, s', r)
    ensures forall other :: other != c.resource ==> Files(d', other) == Files(d, other)
    ensures forall other :: other != c.resource ==> EntitiesAt(s', other) == EntitiesAt(s, other)
  {
    hide Stoi, ToString, IdsOf, ParseAll, Enumerates;
  }

  /** Corresponding calls give the same reply. */
  lemma StepReplies(d: Directories, s: Entities, c: Call, d': Directories, q: Reply, s': Entities, r: Reply)
    requires Related(d, s) && RealStep(d, c, true, d', q) && SimStep(s, c, s', r)
    ensures SameReply(q, r)
  {
    hide Stoi, ToString, IdsOf, SameFiles, ParseAll, Enumerates, Related;
    var files, entities := Files(d, c.resource), EntitiesAt(s, c.resource);
    RelatedAt(d, s, c.resource);
    SameIds(files, entities);
    assert IdsIn(s, c.resource) == entities.Keys;
    match c {
      case Create(_, _) =>
      case Retrieve(_, id) =>
        SameLookup(files, entities, id);
      case Update(_, _, _) =>
      case Remove(_, id) =>
        SameLookup(files, entities, id);
      case List(_) =>
        SameLists(files, entities, q.ids, r.ids);
    }
  }

  /** Corresponding calls keep the file names and contents of their resource in step. */
  lemma StepWrites(d: Directories, s: Entities, c: Call, d': Directories, q: Reply, s': Entities, r: Reply)
    requires Related(d, s) && RealStep(d, c, true, d', q) && SimStep(s, c, s', r) && SameReply(q, r)
    ensures SameFiles(Files(d', c.resource), EntitiesAt(s', c.resource))
  {
    hide Stoi, ToString, IdsOf, SameFiles, ParseAll, Enumerates, Related;
    RelatedAt(d, s, c.resource);
    match c {
      case Create(_, data) =>
        if r.id.Some? {
          SameAfterWrite(Files(d, c.resource), EntitiesAt(s, c.resource), r.id.value, data);
        }
      case Update(_, id, data) =>
        SameAfterWrite(Files(d, c.resource), EntitiesAt(s, c.resource), id, data);
      case Remove(_, id) =>
        RemoveWrites(d, s, c.resource, id);
      case _ =>
    }
  }

  lemma RemoveWrites(d: Directories, s: Entities, resource: string, id: Id)
    requires SameFiles(Files(d, resource), EntitiesAt(s, resource))
    ensures ToString(id) in Files(d, resource) ==>
              SameFiles(d[resource] - {ToString(id)}, EntitiesAt(Drop(s, resource, id), resource))
    ensures ToString(id) !in Files(d, resource) ==> Drop(s, resource, id) == s
  {
    hide Stoi, ToString, SameFiles;
    var files, entities := Files(d, resource), EntitiesAt(s, resource);
    SameLookup(files, entities, id);
    SameAfterRemove(files, entities, id);
    if resource in s && id !in s[resource] {
      assert s[resource] - {id} == s[resource];
    }
  }

  /** Corresponding calls keep the stores related. */
  lemma StepSimulates(d: Directories, s: Entities, c: Call, d': Directories, q: Reply, s': Entities, r: Reply)
    requires Related(d, s) && RealStep(d, c, true, d', q) && SimStep(s, c, s', r)
    ensures Related(d', s') && SameReply(q, r)
  {
    hide *;
    StepReplies(d, s, c, d', q, s', r);
    StepWrites(d, s, c, d', q, s', r);
    OthersStay(d, s, c, true, d', q, s', r);
    RelatedAfter(d, s, c.resource, d', s');
  }

  lemma RelatedAt(d: Directories, s: Entities, resource: string)
    requires Related(d, s)
    ensures SameFiles(Files(d, resource), EntitiesAt(s, resource))
  {
  }

  /** A call whose file does not open fails, and is as if it had not been made. */
  lemma FailedStepKeeps(d: Directories, s: Entities, c: Call, d': Directories, q: Reply)
    requires Related(d, s) && (c.Create? || c.Update?) && RealStep(d, c, false, d', q)
    ensures Related(d', s) && q == if c.Create? then Created(None) else Updated(false)
  {
    hide SameFiles, Related;
    RelatedAt(d, s, c.resource);
    RelatedAfter(d, s, c.resource, d', s);
  }

  lemma SameLists(files: map<string, string>, entities: map<Id, string>, a: seq<Id>, b: seq<Id>)
    requires SameFiles(files, entities) && Enumerates(b, entities.Keys)
    requires exists names :: Enumerates(names, files.Keys) && a == ParseAll(names)
    ensures multiset(a) == multiset(b)
  {
    hide Stoi, ParseAll, SameFiles, Enumerates;
    var names :| Enumerates(names, files.Keys) && a == ParseAll(names);
    ListedIds(files, entities, names);
    EnumerationsAgree(a, b, entities.Keys);
  }

  lemma SameLookup(files: map<string, string>, entities: map<Id, string>, id: Id)
    requires SameFiles(files, entities)
    ensures ToString(id) in files <==> id in entities
    ensures id in entities ==> files[ToString(id)] == entities[id]
  {
    hide Stoi, ToString;
    NameOfId(id);
  }

  /** A call, and whether the file it writes, if it writes one, can be opened. */
  datatype Attempt = Attempt(call: Call, opens: bool)

  predicate WritesFile(c: Call) {
    c.Create? || c.Update?
  }

  /** What a call is answered when its file does not open. */
  function FailedReply(c: Call): Reply {
    if c.Create? then Created(None) else Updated(false)
  }

  /** The map store, asked what the file store is: a call whose file does not open is not made. */
  ghost predicate SimAttempt(s: Entities, a: Attempt, s': Entities, r: Reply) {
    if WritesFile(a.call) && !a.opens then s' == s && r == FailedReply(a.call) else SimStep(s, a.call, s', r)
  }

  lemma AttemptSimulates(d: Directories, s: Entities, a: Attempt, d': Directories, q: Reply, s': Entities, r: Reply)
    requires Related(d, s) && RealStep(d, a.call, a.opens, d', q) && SimAttempt(s, a, s', r)
    ensures Related(d', s') && SameReply(q, r)
  {
    hide Related, SimStep, IdsOf, ParseAll, Enumerates, ToString;
    if WritesFile(a.call) && !a.opens {
      FailedStepKeeps(d, s, a.call, d', q);
    } else {
      StepSimulates(d, s, a.call, d', q, s', r);
    }
  }

  /** A sequence of calls with their replies, on the file store. */
  ghost predicate RealRun(ds: seq<Directories>, xs: seq<Attempt>, rs: seq<Reply>) {
    && |ds| == |xs| + 1 && |rs| == |xs| && ds[0] == map[]
    && forall i :: 0 <= i < |xs| ==> RealStep(ds[i], xs[i].call, xs[i].opens, ds[i + 1], rs[i])
  }

  ghost predicate SimRun(ss: seq<Entities>, xs: seq<Attempt>, rs: seq<Reply>) {
    && |ss| == |xs| + 1 && |rs| == |xs| && ss[0] == map[]
    && forall i :: 0 <= i < |xs| ==> SimAttempt(ss[i], xs[i], ss[i + 1], rs[i])
  }

  /**
   For every sequence of calls from an empty root, and whichever of them fail to
   open their file, the file store gives the replies of the map store, and its
   file names stay exactly the canonical decimals of the live ids.
   */
  lemma {:induction false} FileStoreSimulatesMapStore(xs: seq<Attempt>, ds: seq<Directories>, qs: seq<Reply>,
                                                      ss: seq<Entities>, rs: seq<Reply>)
    requires RealRun(ds, xs, qs) && SimRun(ss, xs, rs)
    ensures forall i :: 0 <= i <= |xs| ==> Related(ds[i], ss[i])
    ensures forall i :: 0 <= i < |xs| ==> SameReply(qs[i], rs[i])
  {
    hide RealStep, SimAttempt, Related, SameReply;
    EmptyRelated();
    for n := 0 to |xs|
      invariant forall i :: 0 <= i <= n ==> Related(ds[i], ss[i])
      invariant forall i :: 0 <= i < n ==> SameReply(qs[i], rs[i])
    {
      AttemptSimulates(ds[n], ss[n], xs[n], ds[n + 1], qs[n], ss[n + 1], rs[n]);
    }
  }

  lemma EmptyRelated()
    ensures Related(map[], map[])
  {
  }

  /**
   Allocation in either store, in every reachable state: the new id is at least
   1 and above every live id, so no entity is overwritten, and allocation fails
   exactly when the largest integer is live.
   */
  lemma AllocationIsFresh(d: Directories, s: Entities, resource: string, data: string,
                          d': Directories, id: Option<Id>)
    requires Related(d, s) && RealStep(d, Create(resource, data), true, d', Created(id))
    ensures SimStep(s, Create(resource, data), if id.None? then s else Put(s, resource, id.value, data), Created(id))
    ensures id == None <==> INT_MAX in IdsIn(s, resource)
    ensures id.Some? ==>
              && id.value >= 1
              && (forall other :: other in IdsIn(s, resource) ==> other < id.value)
              && ToString(id.value) !in Files(d, resource)
  {
    hide Stoi, ToString, IdsOf, SameFiles;
    var entities := EntitiesAt(s, resource);
    RelatedAt(d, s, resource);
    SameIds(Files(d, resource), entities);
    NextIdIsFresh(entities.Keys);
    if id.Some? {
      SameLookup(Files(d, resource), entities, id.value);
    }
  }
}
