/** The browser-local project store: an object store of projects keyed by their `id`,
    with seeding on first run, a newest-first listing and the four mutations. Every
    mutation answers with a fresh listing, as `getProjects` would give it. */
module Storage {
  import opened Types

  type Records = map<string, Project>

  // ---------------------------------------------------------------------------
  // Listing order

  /** The order in which the object store enumerates string keys: code unit by code
      unit, a proper prefix first. */
  predicate IdBefore(a: string, b: string)
    decreases |a|
  {
    if |a| == 0 then |b| > 0
    else if |b| == 0 then false
    else if a[0] != b[0] then a[0] < b[0]
    else IdBefore(a[1..], b[1..])
  }

  lemma {:induction false} IdBeforeIrreflexive(a: string)
    ensures !IdBefore(a, a)
    decreases |a|
  {
    if |a| > 0 {
      IdBeforeIrreflexive(a[1..]);
    }
  }

  lemma {:induction false} IdBeforeTransitive(a: string, b: string, c: string)
    requires IdBefore(a, b) && IdBefore(b, c)
    ensures IdBefore(a, c)
    decreases |a|
  {
    if |a| > 0 && a[0] == b[0] && b[0] == c[0] {
      IdBeforeTransitive(a[1..], b[1..], c[1..]);
    }
  }

  lemma {:induction false} IdBeforeTotal(a: string, b: string)
    ensures a != b ==> IdBefore(a, b) || IdBefore(b, a)
    decreases |a|
  {
    if |a| > 0 && |b| > 0 && a[0] == b[0] {
      assert a == [a[0]] + a[1..] && b == [b[0]] + b[1..];
      IdBeforeTotal(a[1..], b[1..]);
    }
  }

  /** `a` is listed before `b`. The store enumerates records in key order and the
      listing then sorts them by timestamp, newest first, with a stable sort: records
      with equal timestamps stay in key order. */
  predicate Newer(a: Project, b: Project)
  {
    a.timestamp > b.timestamp || (a.timestamp == b.timestamp && IdBefore(a.id, b.id))
  }

  lemma NewerIrreflexive(a: Project)
    ensures !Newer(a, a)
  {
    IdBeforeIrreflexive(a.id);
  }

  lemma NewerAsymmetric(a: Project, b: Project)
    ensures Newer(a, b) ==> !Newer(b, a)
  {
    if a.timestamp == b.timestamp && IdBefore(a.id, b.id) && IdBefore(b.id, a.id) {
      IdBeforeTransitive(a.id, b.id, a.id);
      IdBeforeIrreflexive(a.id);
    }
  }

  lemma NewerTransitive(a: Project, b: Project, c: Project)
    requires Newer(a, b) && Newer(b, c)
    ensures Newer(a, c)
  {
    if a.timestamp == b.timestamp == c.timestamp {
      IdBeforeTransitive(a.id, b.id, c.id);
    }
  }

  lemma NewerTotal(a: Project, b: Project)
    ensures a.id != b.id ==> Newer(a, b) || Newer(b, a)
  {
    IdBeforeTotal(a.id, b.id);
  }

  /** Each record is listed before every later one; in particular timestamps never increase. */
  predicate NewestFirst(s: seq<Project>)
  {
    forall i, j :: 0 <= i < j < |s| ==> Newer(s[i], s[j])
  }

  /** `s` holds exactly the stored records: each element is the record stored under its
      id, and each stored record occurs. */
  predicate HoldsExactly(s: seq<Project>, m: Records)
  {
    && (forall x :: x in s ==> x.id in m && m[x.id] == x)
    && (forall k :: k in m ==> m[k] in s)
  }

  /** `s` is what `getProjects` answers for the store contents `m`. */
  predicate IsListing(s: seq<Project>, m: Records)
  {
    HoldsExactly(s, m) && NewestFirst(s)
  }

  /** Every record is stored under its own id (the object store's key path is `id`). */
  predicate WellKeyed(m: Records)
  {
    forall k :: k in m ==> m[k].id == k
  }

  /** A sequence with the same elements as an empty one is empty. */
  lemma SameElementsEmpty(a: seq<Project>, b: seq<Project>)
    requires forall x :: x in a <==> x in b
    ensures a == [] ==> b == []
  {
    if b != [] {
      assert b[0] in b;
    }
  }

  /** Two newest-first sequences with the same elements are the same sequence. */
  lemma {:induction false} NewestFirstUnique(a: seq<Project>, b: seq<Project>)
    requires NewestFirst(a) && NewestFirst(b)
    requires forall x :: x in a <==> x in b
    ensures a == b
    decreases |a|
  {
    SameElementsEmpty(a, b);
    if a != [] {
      assert a[0] in b;
      assert b[0] in a;
      NewerAsymmetric(a[0], b[0]);
      assert a[0] == b[0];
      NewerIrreflexive(a[0]);
      assert a[0] !in a[1..] && b[0] !in b[1..];
      forall x
        ensures x in a[1..] <==> x in b[1..]
      {
        assert x in a <==> x in a[1..] || x == a[0];
        assert x in b <==> x in b[1..] || x == b[0];
      }
      NewestFirstUnique(a[1..], b[1..]);
      assert a == [a[0]] + a[1..] && b == [b[0]] + b[1..];
    }
  }

  /** The listing is determined by the store contents, so any operation that answers with
      a listing of its post-state answers exactly what `getProjects` would. */
  lemma ListingUnique(s: seq<Project>, t: seq<Project>, m: Records)
    requires IsListing(s, m) && IsListing(t, m)
    ensures s == t
  {
    NewestFirstUnique(s, t);
  }

  /** The ids of a sequence of projects. */
  function IdsOf(s: seq<Project>): (ids: set<string>)
    ensures forall x :: x in s ==> x.id in ids
    ensures forall k :: k in ids ==> exists i :: 0 <= i < |s| && s[i].id == k
  {
    if s == [] then {} else {s[0].id} + IdsOf(s[1..])
  }

  /** A sequence whose ids are pairwise distinct has as many ids as elements. */
  lemma {:induction false} DistinctIdsCount(s: seq<Project>)
    requires forall i, j :: 0 <= i < j < |s| ==> s[i].id != s[j].id
    ensures |IdsOf(s)| == |s|
    decreases |s|
  {
    if s != [] {
      DistinctIdsCount(s[1..]);
      assert s[0].id !in IdsOf(s[1..]);
    }
  }

  lemma ListingDistinct(s: seq<Project>, m: Records)
    requires IsListing(s, m)
    ensures forall i, j :: 0 <= i < j < |s| ==> s[i].id != s[j].id
  {
    forall i, j | 0 <= i < j < |s|
      ensures s[i].id != s[j].id
    {
      NewerIrreflexive(s[i]);
      assert s[i] in s && s[j] in s;
    }
  }

  lemma ListingIds(s: seq<Project>, m: Records)
    requires WellKeyed(m) && HoldsExactly(s, m)
    ensures IdsOf(s) == m.Keys
  {
    forall k | k in m
      ensures k in IdsOf(s)
    {
      assert m[k] in s;
    }
    forall k | k in IdsOf(s)
      ensures k in m
    {
      var i :| 0 <= i < |s| && s[i].id == k;
      assert s[i] in s;
    }
  }

  /** A listing holds every stored record exactly once: no two elements share an id, and
      there are as many elements as the store holds records. */
  lemma ListingCount(s: seq<Project>, m: Records)
    requires WellKeyed(m) && IsListing(s, m)
    ensures |s| == |m|
    ensures forall i, j :: 0 <= i < j < |s| ==> s[i].id != s[j].id
  {
    ListingDistinct(s, m);
    DistinctIdsCount(s);
    ListingIds(s, m);
    assert |m.Keys| == |m|;
  }

  /** Putting `p` between the records newer than it and the records older than it keeps
      the sequence newest-first and adds exactly `p`. */
  lemma InsertAtPlace(s: seq<Project>, p: Project, i: int)
    requires NewestFirst(s) && 0 <= i <= |s|
    requires forall j :: 0 <= j < i ==> Newer(s[j], p)
    requires forall j :: i <= j < |s| ==> Newer(p, s[j])
    ensures NewestFirst(s[..i] + [p] + s[i..])
    ensures forall x :: x in s[..i] + [p] + s[i..] <==> x in s || x == p
  {
    var r := s[..i] + [p] + s[i..];
    assert forall k :: 0 <= k < i ==> r[k] == s[k];
    assert r[i] == p;
    assert forall k :: i < k < |r| ==> r[k] == s[k - 1];
    forall k, l | 0 <= k < l < |r|
      ensures Newer(r[k], r[l])
    {
      if l < i || i < k {
      } else if k == i {
        assert r[l] == s[l - 1];
      } else {
        assert r[k] == s[k];
      }
    }
    assert s == s[..i] + s[i..];
  }

  /** Inserts `p` into a newest-first sequence at its place. */
  method InsertNewestFirst(s: seq<Project>, p: Project) returns (r: seq<Project>)
    requires NewestFirst(s)
    requires forall i :: 0 <= i < |s| ==> s[i].id != p.id
    ensures NewestFirst(r)
    ensures |r| == |s| + 1
    ensures forall x :: x in r <==> x in s || x == p
  {
    var i := 0;
    while i < |s| && Newer(s[i], p)
      invariant 0 <= i <= |s|
      invariant forall j :: 0 <= j < i ==> Newer(s[j], p)
    {
      i := i + 1;
    }
    if i < |s| {
      NewerTotal(s[i], p);
      forall j | i <= j < |s|
        ensures Newer(p, s[j])
      {
        if j > i {
          NewerTransitive(p, s[i], s[j]);
        }
      }
    }
    InsertAtPlace(s, p, i);
    r := s[..i] + [p] + s[i..];
  }

  // ---------------------------------------------------------------------------
  // The operations on the store contents

  /** `store.put(project)`: the record takes the place of any record with its id. */
  function Upsert(m: Records, p: Project): (m': Records)
    ensures p.id in m' && m'[p.id] == p
    ensures forall k :: k != p.id ==> (k in m' <==> k in m)
    ensures forall k :: k != p.id && k in m ==> m'[k] == m[k]
  {
    m[p.id := p]
  }

  /** `store.delete(id)`: a missing id is not an error. */
  function Remove(m: Records, id: string): (m': Records)
    ensures id !in m'
    ensures forall k :: k != id ==> (k in m' <==> k in m)
    ensures forall k :: k != id && k in m ==> m'[k] == m[k]
  {
    m - {id}
  }

  /** Read the record, add one like, write it back; a missing id changes nothing. */
  function Like(m: Records, id: string): (m': Records)
    ensures m'.Keys == m.Keys
    ensures id in m ==> m'[id] == m[id].(likes := m[id].likes + 1)
    ensures forall k :: k != id && k in m ==> m'[k] == m[k]
  {
    if id in m then m[id := m[id].(likes := m[id].likes + 1)] else m
  }

  /** Read the record, put the comment in front of its comments, write it back; a
      missing id changes nothing. */
  function Prepend(m: Records, id: string, c: Comment): (m': Records)
    ensures m'.Keys == m.Keys
    ensures id in m ==> m'[id].comments == [c] + m[id].comments
    ensures id in m ==> m'[id] == m[id].(comments := m'[id].comments)
    ensures forall k :: k != id && k in m ==> m'[k] == m[k]
  {
    if id in m then m[id := m[id].(comments := [c] + m[id].comments)] else m
  }

  /** Saving the same record twice leaves the store as saving it once. */
  lemma UpsertIdempotent(m: Records, p: Project)
    ensures Upsert(Upsert(m, p), p) == Upsert(m, p)
  {
  }

  /** Deleting twice leaves the store as deleting once. */
  lemma RemoveIdempotent(m: Records, id: string)
    ensures Remove(Remove(m, id), id) == Remove(m, id)
  {
  }

  /** After a save, the listing holds the saved record and no other record with its id. */
  lemma SavedIsListedOnce(s: seq<Project>, m: Records, p: Project)
    requires IsListing(s, Upsert(m, p))
    ensures p in s
    ensures forall i :: 0 <= i < |s| && s[i].id == p.id ==> s[i] == p
  {
  }

  /** After a delete, the listing holds no record with that id. */
  lemma RemovedIsNotListed(s: seq<Project>, m: Records, id: string)
    requires IsListing(s, Remove(m, id))
    ensures forall i :: 0 <= i < |s| ==> s[i].id != id
  {
  }

  /** `n` likes in a row. */
  function LikeTimes(m: Records, id: string, n: nat): (m': Records)
  {
    if n == 0 then m else Like(LikeTimes(m, id, n - 1), id)
  }

  /** Sequential likes are never lost: `n` likes raise the count by exactly `n` and touch
      nothing else. */
  lemma {:induction false} LikeTimesCount(m: Records, id: string, n: nat)
    requires id in m
    ensures LikeTimes(m, id, n).Keys == m.Keys
    ensures LikeTimes(m, id, n)[id] == m[id].(likes := m[id].likes + n)
    ensures forall k :: k != id && k in m ==> LikeTimes(m, id, n)[k] == m[k]
  {
    if n > 0 {
      LikeTimesCount(m, id, n - 1);
    }
  }

  function Reversed(s: seq<Comment>): (r: seq<Comment>)
    ensures |r| == |s|
  {
    if s == [] then [] else Reversed(s[1..]) + [s[0]]
  }

  /** The comments `cs` posted one after the other. */
  function PrependAll(m: Records, id: string, cs: seq<Comment>): (m': Records)
    decreases |cs|
  {
    if cs == [] then m else PrependAll(Prepend(m, id, cs[0]), id, cs[1..])
  }

  /** After posting `cs` in order, the newest comment comes first, the earlier comments
      keep their order behind them, and the list has grown by exactly `|cs|`. */
  lemma {:induction false} PrependAllOrder(m: Records, id: string, cs: seq<Comment>)
    requires id in m
    ensures PrependAll(m, id, cs).Keys == m.Keys
    ensures PrependAll(m, id, cs)[id].comments == Reversed(cs) + m[id].comments
    ensures |PrependAll(m, id, cs)[id].comments| == |cs| + |m[id].comments|
    ensures PrependAll(m, id, cs)[id] == m[id].(comments := PrependAll(m, id, cs)[id].comments)
    ensures forall k :: k != id && k in m ==> PrependAll(m, id, cs)[k] == m[k]
    decreases |cs|
  {
    if cs != [] {
      var m1 := Prepend(m, id, cs[0]);
      PrependAllOrder(m1, id, cs[1..]);
      assert Reversed(cs) == Reversed(cs[1..]) + [cs[0]];
      assert Reversed(cs[1..]) + m1[id].comments == Reversed(cs) + m[id].comments;
    }
  }

  // ---------------------------------------------------------------------------
  // Seed data

  /** The three demonstration records. Their timestamps are taken from the clock when
      the module loads, 100 seconds apart, newest first. */
  function InitialData(loadTime: int): (data: seq<Project>)
    ensures |data| == 3
  {
    [ Project("1", "Neon Cyberpunk Poster",
        "A futuristic poster design for a music festival in Tokyo. Created using Photoshop and Blender.",
        "https://picsum.photos/800/1000?random=1", None, 42,
        [Comment("c1", "Alex", "This colors are amazing!", loadTime)],
        loadTime, "Poster"),
      Project("2", "Minimalist Brand Identity",
        "Complete branding package for a coffee shop, focusing on earth tones and clean typography.",
        "https://picsum.photos/800/600?random=2", None, 128, [],
        loadTime - 100000, "Branding"),
      Project("3", "Social Media Kit",
        "Instagram templates for a fashion influencer. High engagement layout.",
        "https://picsum.photos/800/800?random=3", None, 85, [],
        loadTime - 200000, "Social Media") ]
  }

  /** The records of `ps` written one after the other. */
  function PutAll(m: Records, ps: seq<Project>): (m': Records)
  {
    if ps == [] then m else Upsert(PutAll(m, ps[..|ps| - 1]), ps[|ps| - 1])
  }

  /** What the store holds after seeding. */
  function SeedRecords(loadTime: int): (m: Records)
  {
    PutAll(map[], InitialData(loadTime))
  }

  /** Seeding happens on an empty store only: a store that holds anything is left as it
      is, and an empty one ends up with the three seed records under their own ids. */
  function Initialized(m: Records, loadTime: int): (m': Records)
    ensures |m| > 0 ==> m' == m
    ensures |m| == 0 ==> m'.Keys == {"1", "2", "3"} && WellKeyed(m')
    ensures |m| == 0 ==> forall k :: k in m' ==> m'[k] in InitialData(loadTime)
  {
    if |m| == 0 then
      SeedShape(loadTime);
      SeedRecords(loadTime)
    else m
  }

  /** The seeded store holds the seed records, each under its own id. */
  lemma SeedShape(loadTime: int)
    ensures SeedRecords(loadTime).Keys == {"1", "2", "3"} && WellKeyed(SeedRecords(loadTime))
    ensures forall k :: k in SeedRecords(loadTime) ==> SeedRecords(loadTime)[k] in InitialData(loadTime)
  {
    SeedRecordsContents(loadTime);
    var d := InitialData(loadTime);
    assert d[0].id == "1" && d[1].id == "2" && d[2].id == "3";
    assert d[0] in d && d[1] in d && d[2] in d;
  }

  /** The seed writes three records under the ids "1", "2" and "3". */
  lemma SeedRecordsContents(loadTime: int)
    ensures SeedRecords(loadTime) == map[
      "1" := InitialData(loadTime)[0], "2" := InitialData(loadTime)[1], "3" := InitialData(loadTime)[2]]
  {
    var data := InitialData(loadTime);
    assert data[0].id == "1" && data[1].id == "2" && data[2].id == "3";
    assert data[..1][..0] == [];
    assert PutAll(map[], data[..1][..0]) == map[];
    var m1 := PutAll(map[], data[..1]);
    assert m1 == Upsert(map[], data[0]);
    assert m1 == map["1" := data[0]];
    assert data[..2][..1] == data[..1];
    var m2 := PutAll(map[], data[..2]);
    assert m2 == m1["2" := data[1]];
    assert data[..3][..2] == data[..2];
    assert data[..3] == data;
    assert SeedRecords(loadTime) == m2["3" := data[2]];
  }

  /** A freshly seeded store lists its records as "1", "2", "3". */
  lemma SeedListing(loadTime: int, s: seq<Project>)
    requires IsListing(s, SeedRecords(loadTime))
    ensures s == InitialData(loadTime)
    ensures |s| == 3 && s[0].id == "1" && s[1].id == "2" && s[2].id == "3"
  {
    var data := InitialData(loadTime);
    SeedRecordsContents(loadTime);
    assert IsListing(data, SeedRecords(loadTime)) by {
      assert forall k :: k in SeedRecords(loadTime) ==> k == "1" || k == "2" || k == "3";
    }
    ListingUnique(s, data, SeedRecords(loadTime));
  }

  /** Initialising twice is initialising once, whatever the clock says the second time. */
  lemma InitializedIdempotent(m: Records, t1: int, t2: int)
    ensures Initialized(Initialized(m, t1), t2) == Initialized(m, t1)
  {
    SeedRecordsContents(t1);
    assert "1" in SeedRecords(t1);
  }

  // ---------------------------------------------------------------------------
  // The store

  class ProjectStore {
    /** The object store's contents, by key. */
    var records: Records

    ghost predicate Valid()
      reads this
    {
      WellKeyed(records)
    }

    /** A store opened for the first time is empty. */
    constructor ()
      ensures Valid() && records == map[]
    {
      records := map[];
    }

    /** `initDB`: on an empty store, add the seed records one by one; otherwise do nothing. */
    method InitDB(loadTime: int)
      requires Valid()
      modifies this
      ensures Valid()
      ensures records == Initialized(old(records), loadTime)
    {
      if |records| == 0 {
        AddAll(InitialData(loadTime));
      }
    }

    /** `data.forEach(p => store.add(p))`. `add` fails on a key that is already present;
        the caller passes records with fresh, pairwise distinct ids, so every add succeeds. */
    method AddAll(data: seq<Project>)
      requires Valid()
      requires forall i, j :: 0 <= i < j < |data| ==> data[i].id != data[j].id
      requires forall i :: 0 <= i < |data| ==> data[i].id !in records
      modifies this
      ensures Valid()
      ensures records == PutAll(old(records), data)
    {
      var i := 0;
      while i < |data|
        invariant 0 <= i <= |data|
        invariant Valid()
        invariant records == PutAll(old(records), data[..i])
        invariant forall j :: i <= j < |data| ==> data[j].id !in records
      {
        assert data[i].id !in records;
        records := records[data[i].id := data[i]];
        assert data[..i + 1][..i] == data[..i];
        i := i + 1;
      }
      assert data[..|data|] == data;
    }

    /** `store.get(id)`. */
    method Get(id: string) returns (found: Option<Project>)
      ensures found.Some? <==> id in records
      ensures found.Some? ==> found.value == records[id]
    {
      found := if id in records then Some(records[id]) else None;
    }

    /** `getProjects`: every stored record once, newest first. */
    method GetProjects() returns (r: seq<Project>)
      requires Valid()
      ensures IsListing(r, records)
    {
      var rest := records.Keys;
      r := [];
      while rest != {}
        invariant rest <= records.Keys
        invariant NewestFirst(r)
        invariant forall x :: x in r ==> x.id in records && records[x.id] == x && x.id !in rest
        invariant forall k :: k in records && k !in rest ==> records[k] in r
        decreases rest
      {
        var k :| k in rest;
        r := InsertNewestFirst(r, records[k]);
        rest := rest - {k};
      }
    }

    /** `saveProject`: upsert by id, then list. */
    method SaveProject(p: Project) returns (r: seq<Project>)
      requires Valid()
      modifies this
      ensures Valid()
      ensures records == Upsert(old(records), p)
      ensures IsListing(r, records)
    {
      records := records[p.id := p];
      r := GetProjects();
    }

    /** `deleteProject`: remove by id, then list. */
    method DeleteProject(id: string) returns (r: seq<Project>)
      requires Valid()
      modifies this
      ensures Valid()
      ensures records == Remove(old(records), id)
      ensures IsListing(r, records)
    {
      records := records - {id};
      r := GetProjects();
    }

    /** `toggleLikeProject`: read the record, add one like, save it back, then list. */
    method ToggleLikeProject(id: string) returns (r: seq<Project>)
      requires Valid()
      modifies this
      ensures Valid()
      ensures records == Like(old(records), id)
      ensures IsListing(r, records)
    {
      var found := Get(id);
      if found.Some? {
        var project := found.value.(likes := found.value.likes + 1);
        var saved := SaveProject(project);
      }
      r := GetProjects();
    }

    /** `addCommentToProject`: read the record, put the comment first, save it back, then list. */
    method AddCommentToProject(projectId: string, comment: Comment) returns (r: seq<Project>)
      requires Valid()
      modifies this
      ensures Valid()
      ensures records == Prepend(old(records), projectId, comment)
      ensures IsListing(r, records)
    {
      var found := Get(projectId);
      if found.Some? {
        var project := found.value.(comments := [comment] + found.value.comments);
        var saved := SaveProject(project);
      }
      r := GetProjects();
    }
  }
}
