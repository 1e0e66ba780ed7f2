/** The index over holding claims: each resource's keys in (start, id) order. */
module ClaimIndex {
  import opened Core
  import opened Ordering
  import opened Claims
  import opened Verdicts

  /** The keys of the claims holding a resource. */
  function HoldingKeys(book: Book, resource: Id): set<Key> {
    set id | id in book && HoldsResource(book[id].reservation.state) && book[id].reservation.resource == resource
      :: KeyOf(book[id])
  }

  function Bucket(index: map<Id, seq<Key>>, resource: Id): seq<Key> {
    if resource in index then index[resource] else []
  }

  /** The index describes exactly the book: nothing stale, nothing missing, no empty bucket. */
  ghost predicate Indexes(index: map<Id, seq<Key>>, book: Book) {
    forall resource ::
      && Bucket(index, resource) == InKeyOrder(HoldingKeys(book, resource))
      && (resource in index <==> HoldingKeys(book, resource) != {})
  }

  /** Insertion into an ordered map's keys. */
  function Placed(q: seq<Key>, k: Key): seq<Key> {
    if q == [] then [k]
    else if KeyLess(q[0], k) then [q[0]] + Placed(q[1..], k)
    else if q[0] == k then q
    else [k] + q
  }

  function Erased(q: seq<Key>, k: Key): seq<Key> {
    if q == [] then []
    else if q[0] == k then q[1..]
    else [q[0]] + Erased(q[1..], k)
  }

  lemma {:induction false} PlacedMembers(q: seq<Key>, k: Key)
    requires Ascending(q, KeyLess)
    ensures forall x :: x in Placed(q, k) <==> x in q || x == k
    ensures Ascending(Placed(q, k), KeyLess)
  {
    if q != [] && KeyLess(q[0], k) {
      PlacedMembers(q[1..], k);
      var rest := Placed(q[1..], k);
      forall i | 0 <= i < |rest| ensures KeyLess(q[0], rest[i]) {
        assert rest[i] in rest;
        if rest[i] != k {
          assert rest[i] in q[1..];
        }
      }
      assert q == [q[0]] + q[1..];
    }
  }

  lemma {:induction false} ErasedMembers(q: seq<Key>, k: Key)
    requires Ascending(q, KeyLess)
    ensures forall x :: x in Erased(q, k) <==> x in q && x != k
    ensures Ascending(Erased(q, k), KeyLess)
  {
    if q != [] {
      assert q == [q[0]] + q[1..];
      if q[0] == k {
        var rest := q[1..];
        forall i | 0 <= i < |rest| ensures KeyLess(k, rest[i]) {
          assert rest[i] == q[i + 1];
        }
      } else {
        ErasedMembers(q[1..], k);
        var rest := Erased(q[1..], k);
        forall i | 0 <= i < |rest| ensures KeyLess(q[0], rest[i]) {
          assert rest[i] in rest;
          assert rest[i] in q[1..];
        }
      }
    }
  }

  lemma PlacedInOrder(keys: set<Key>, k: Key)
    ensures Placed(InKeyOrder(keys), k) == InKeyOrder(keys + {k})
  {
    hide KeyLess;
    var q := InKeyOrder(keys);
    PlacedMembers(q, k);
    KeyOrder();
    InOrderIsUnique(Placed(q, k), keys + {k}, KeyLess);
  }

  lemma ErasedInOrder(keys: set<Key>, k: Key)
    ensures Erased(InKeyOrder(keys), k) == InKeyOrder(keys - {k})
  {
    hide KeyLess;
    var q := InKeyOrder(keys);
    ErasedMembers(q, k);
    KeyOrder();
    InOrderIsUnique(Erased(q, k), keys - {k}, KeyLess);
  }

  function Indexed(index: map<Id, seq<Key>>, r: Record): map<Id, seq<Key>> {
    index[r.reservation.resource := Placed(Bucket(index, r.reservation.resource), KeyOf(r))]
  }

  function Unindexed(index: map<Id, seq<Key>>, r: Record): map<Id, seq<Key>> {
    var rest := Erased(Bucket(index, r.reservation.resource), KeyOf(r));
    if rest == [] then index - {r.reservation.resource} else index[r.reservation.resource := rest]
  }

  lemma KeysInserted(book: Book, r: Record, resource: Id)
    requires r.reservation.id !in book
    ensures HoldingKeys(book[r.reservation.id := r], resource) ==
      HoldingKeys(book, resource)
      + if HoldsResource(r.reservation.state) && r.reservation.resource == resource then {KeyOf(r)} else {}
  {
    var after := book[r.reservation.id := r];
    hide HoldsResource;
    forall k | k in HoldingKeys(book, resource) ensures k in HoldingKeys(after, resource) {
      var i :| i in book && HoldsResource(book[i].reservation.state) && book[i].reservation.resource == resource && KeyOf(book[i]) == k;
      assert i in after && after[i] == book[i];
    }
    if HoldsResource(r.reservation.state) && r.reservation.resource == resource {
      assert after[r.reservation.id] == r;
    }
  }

  lemma IndexInserted(index: map<Id, seq<Key>>, book: Book, r: Record)
    requires Indexes(index, book) && r.reservation.id !in book
    ensures Indexes(if HoldsResource(r.reservation.state) then Indexed(index, r) else index, book[r.reservation.id := r])
  {
    var after := book[r.reservation.id := r];
    var grown := if HoldsResource(r.reservation.state) then Indexed(index, r) else index;
    hide HoldingKeys, HoldsResource, InKeyOrder;
    forall resource
      ensures Bucket(grown, resource) == InKeyOrder(HoldingKeys(after, resource))
      ensures resource in grown <==> HoldingKeys(after, resource) != {}
    {
      KeysInserted(book, r, resource);
      PlacedInOrder(HoldingKeys(book, resource), KeyOf(r));
      assert Bucket(index, resource) == InKeyOrder(HoldingKeys(book, resource));
    }
  }

  lemma KeysRemoved(book: Book, id: Id, resource: Id)
    requires id in book
    ensures HoldingKeys(book - {id}, resource) ==
      HoldingKeys(book, resource)
      - if HoldsResource(book[id].reservation.state) && book[id].reservation.resource == resource then {KeyOf(book[id])} else {}
  {
    var after := book - {id};
    forall k | k in HoldingKeys(book, resource) && k != KeyOf(book[id]) ensures k in HoldingKeys(after, resource) {
      var i :| i in book && HoldsResource(book[i].reservation.state) && book[i].reservation.resource == resource && KeyOf(book[i]) == k;
      assert i in after && after[i] == book[i];
    }
  }

  lemma BucketRemoved(index: map<Id, seq<Key>>, book: Book, id: Id, resource: Id)
    requires Indexes(index, book) && id in book
    ensures var after := if HoldsResource(book[id].reservation.state) then Unindexed(index, book[id]) else index;
            && Bucket(after, resource) == InKeyOrder(HoldingKeys(book - {id}, resource))
            && (resource in after <==> HoldingKeys(book - {id}, resource) != {})
  {
    hide *;
    KeysRemoved(book, id, resource);
    BucketIs(index, book, resource);
    var keys, r := HoldingKeys(book, resource), book[id];
    if HoldsResource(r.reservation.state) {
      UnindexedBucket(index, r, resource, keys);
    } else {
      assert keys - {} == keys;
    }
  }

  lemma BucketIs(index: map<Id, seq<Key>>, book: Book, resource: Id)
    requires Indexes(index, book)
    ensures Bucket(index, resource) == InKeyOrder(HoldingKeys(book, resource))
    ensures resource in index <==> HoldingKeys(book, resource) != {}
  {
    hide Bucket, InKeyOrder, HoldingKeys;
  }

  lemma UnindexedBucket(index: map<Id, seq<Key>>, r: Record, resource: Id, keys: set<Key>)
    requires Bucket(index, resource) == InKeyOrder(keys) && (resource in index <==> keys != {})
    ensures var rest := if r.reservation.resource == resource then keys - {KeyOf(r)} else keys;
            && Bucket(Unindexed(index, r), resource) == InKeyOrder(rest)
            && (resource in Unindexed(index, r) <==> rest != {})
  {
    ErasedInOrder(keys, KeyOf(r));
    hide Erased, InKeyOrder, KeyOf;
    assert |InKeyOrder(keys - {KeyOf(r)})| == |keys - {KeyOf(r)}|;
  }

  lemma IndexRemoved(index: map<Id, seq<Key>>, book: Book, id: Id)
    requires Indexes(index, book) && id in book
    ensures Indexes(if HoldsResource(book[id].reservation.state) then Unindexed(index, book[id]) else index, book - {id})
  {
    hide HoldingKeys, HoldsResource, InKeyOrder, Unindexed;
    var after := if HoldsResource(book[id].reservation.state) then Unindexed(index, book[id]) else index;
    forall resource
      ensures Bucket(after, resource) == InKeyOrder(HoldingKeys(book - {id}, resource))
      ensures resource in after <==> HoldingKeys(book - {id}, resource) != {}
    {
      BucketRemoved(index, book, id, resource);
    }
  }

  /** Every claim a robot made, finished ones included; no robot without claims. */
  ghost predicate IndexesRobots(byRobot: map<Id, set<Id>>, book: Book) {
    && (forall id :: id in book ==> book[id].reservation.robot in byRobot && id in byRobot[book[id].reservation.robot])
    && (forall robot :: robot in byRobot ==> byRobot[robot] != {})
    && (forall robot, id :: robot in byRobot && id in byRobot[robot] ==> id in book && book[id].reservation.robot == robot)
  }

  // ---- Lists of claims in (start, id) order.

  function Keys(rs: seq<Record>): seq<Key> {
    seq(|rs|, i requires 0 <= i < |rs| => KeyOf(rs[i]))
  }

  function Ids(rs: seq<Record>): seq<Id> {
    seq(|rs|, i requires 0 <= i < |rs| => rs[i].reservation.id)
  }

  /** `rs` are exactly the claims `ids` of the book, in (start, id) order. */
  ghost predicate ListsClaims(rs: seq<Record>, book: Book, ids: set<Id>) {
    && (forall r :: r in rs ==> r.reservation.id in ids && r.reservation.id in book && book[r.reservation.id] == r)
    && (forall id :: id in ids ==> id in book && book[id] in rs)
    && Ascending(Keys(rs), KeyLess)
  }

  lemma ListedInClaimOrder(rs: seq<Record>, book: Book, ids: set<Id>)
    requires ListsClaims(rs, book, ids)
    ensures Ids(rs) == InClaimOrder(book, ids)
  {
    ListedKeys(rs, book, ids);
    KeyOrder();
    hide KeyLess, Ascending, StrictTotalOrder, KeysOf, InOrder;
    InOrderIsUnique(Keys(rs), KeysOf(book, ids), KeyLess);
  }

  lemma ListedKeys(rs: seq<Record>, book: Book, ids: set<Id>)
    requires ListsClaims(rs, book, ids)
    ensures forall k :: k in Keys(rs) ==> k in KeysOf(book, ids)
    ensures forall k :: k in KeysOf(book, ids) ==> k in Keys(rs)
  {
    hide KeyLess, Ascending;
    var keys := Keys(rs);
    forall k | k in KeysOf(book, ids) ensures k in keys {
      var id :| id in ids && id in book && KeyOf(book[id]) == k;
      var i :| 0 <= i < |rs| && rs[i] == book[id];
      assert keys[i] == k;
    }
    forall k | k in keys ensures k in KeysOf(book, ids) {
      var i :| 0 <= i < |keys| && keys[i] == k;
      assert rs[i] in rs;
    }
  }
}

/** The reservation table: the records, the two indices, and the admission check. */
module Table {
  import opened Core
  import opened Ordering
  import opened Graph
  import opened Claims
  import opened Admission
  import opened Verdicts
  import opened ClaimIndex
  import opened MapIndex

  /** Distinct robots among these claims at an instant. */
  function CountedAt(candidates: seq<Record>, t: Time): set<Id> {
    set r | r in candidates && Contains(r.reservation.window, t) :: r.reservation.robot
  }

  /** The latest sampled instant no later than `t`: nobody can have arrived since. */
  lemma SampleCovers(candidates: seq<Record>, w: TimeWindow, instants: set<Time>, t: Time)
    requires Contains(w, t) && w.start in instants
    requires forall r :: r in candidates && Contains(w, r.reservation.window.start) ==> r.reservation.window.start in instants
    ensures exists s :: s in instants && CountedAt(candidates, t) <= CountedAt(candidates, s)
  {
    var s := LatestUpTo(instants, w.start, t);
    forall x | x in CountedAt(candidates, t) ensures x in CountedAt(candidates, s) {
      var r :| r in candidates && Contains(r.reservation.window, t) && r.reservation.robot == x;
      assert Contains(r.reservation.window, s);
    }
  }

  /** The most robots inside the window at any one instant. Only the window's own start and the
      starts inside it are examined, and that is exact. */
  method PeakOccupancy(candidates: seq<Record>, w: TimeWindow) returns (peak: nat)
    ensures exists t :: Contains(w, t) && |CountedAt(candidates, t)| == peak
    ensures forall t :: Contains(w, t) ==> |CountedAt(candidates, t)| <= peak
  {
    if candidates == [] {
      assert Contains(w, w.start) && CountedAt(candidates, w.start) == {};
      assert forall t :: CountedAt(candidates, t) == {};
      return 0;
    }
    var instants := {w.start};
    for i := 0 to |candidates|
      invariant w.start in instants
      invariant forall s :: s in instants ==> Contains(w, s)
      invariant forall j :: 0 <= j < i && Contains(w, candidates[j].reservation.window.start) ==> candidates[j].reservation.window.start in instants
    {
      if Contains(w, candidates[i].reservation.window.start) {
        instants := instants + {candidates[i].reservation.window.start};
      }
    }
    peak := 0;
    var left := instants;
    ghost var busiest := w.start;
    while left != {}
      invariant left <= instants
      invariant left != instants ==> busiest in instants && |CountedAt(candidates, busiest)| == peak
      invariant left == instants ==> peak == 0
      invariant forall s :: s in instants - left ==> |CountedAt(candidates, s)| <= peak
      decreases |left|
    {
      ghost var some := Member(left);
      var instant :| instant in left;
      var robots := CountedAt(candidates, instant);
      if |robots| > peak || left == instants {
        busiest := instant;
      }
      peak := if |robots| > peak then |robots| else peak;
      left := left - {instant};
    }
    assert Contains(w, busiest);
    forall t | Contains(w, t) ensures |CountedAt(candidates, t)| <= peak {
      SampleCovers(candidates, w, instants, t);
      var s :| s in instants && CountedAt(candidates, t) <= CountedAt(candidates, s);
      SubsetSize(CountedAt(candidates, t), CountedAt(candidates, s));
    }
  }

  /** Counting the contenders at an instant of the window is counting the other robots inside. */
  lemma CountedAreOthers(book: Book, resource: Id, requester: Id, w: TimeWindow, candidates: seq<Record>, t: Time)
    requires ListsClaims(candidates, book, ContenderIds(book, resource, requester, w)) && Contains(w, t)
    ensures CountedAt(candidates, t) == OthersAt(book, resource, requester, t)
  {
    hide Ascending;
    forall x | x in OthersAt(book, resource, requester, t) ensures x in CountedAt(candidates, t) {
      var i :| i in book && Occupies(book[i], resource, t) && book[i].reservation.robot == x;
      assert i in ContenderIds(book, resource, requester, w);
      assert book[i] in candidates;
    }
    forall x | x in CountedAt(candidates, t) ensures x in OthersAt(book, resource, requester, t) {
      var r :| r in candidates && Contains(r.reservation.window, t) && r.reservation.robot == x;
      assert r.reservation.id in book && Occupies(book[r.reservation.id], resource, t);
    }
  }

  lemma CountedPeak(book: Book, resource: Id, requester: Id, w: TimeWindow, candidates: seq<Record>, peak: nat)
    requires ListsClaims(candidates, book, ContenderIds(book, resource, requester, w))
    requires exists t :: Contains(w, t) && |CountedAt(candidates, t)| == peak
    requires forall t :: Contains(w, t) ==> |CountedAt(candidates, t)| <= peak
    ensures peak == Peak(book, resource, requester, w)
  {
    hide Peak, ContenderIds, ListsClaims, CountedAt, OthersAt, Contains;
    forall t | Contains(w, t) ensures CountedAt(candidates, t) == OthersAt(book, resource, requester, t) {
      CountedAreOthers(book, resource, requester, w, candidates, t);
    }
    var t :| Contains(w, t) && |CountedAt(candidates, t)| == peak;
    assert |OthersAt(book, resource, requester, t)| == peak;
    assert IsPeak(book, resource, requester, w, peak);
    PeakIsUnique(book, resource, requester, w, peak, Peak(book, resource, requester, w));
  }

  // ------------------------------------------------------------- keeping the indices in step

  lemma CountRemoved(book: Book, id: Id)
    requires id in book
    ensures |HoldingIds(book - {id})| == |HoldingIds(book)| - if HoldsResource(book[id].reservation.state) then 1 else 0
  {
    if HoldsResource(book[id].reservation.state) {
      assert HoldingIds(book - {id}) == HoldingIds(book) - {id};
    } else {
      assert HoldingIds(book - {id}) == HoldingIds(book);
    }
  }

  lemma RobotsInserted(byRobot: map<Id, set<Id>>, book: Book, r: Record)
    requires IndexesRobots(byRobot, book) && r.reservation.id !in book
    ensures var robot := r.reservation.robot;
            IndexesRobots(byRobot[robot := (if robot in byRobot then byRobot[robot] else {}) + {r.reservation.id}],
                          book[r.reservation.id := r])
  {
  }

  lemma RobotsRewritten(byRobot: map<Id, set<Id>>, book: Book, r: Record)
    requires IndexesRobots(byRobot, book) && r.reservation.id in book && book[r.reservation.id].reservation.robot == r.reservation.robot
    ensures IndexesRobots(byRobot, book[r.reservation.id := r])
  {
  }

  lemma RobotsRemoved(byRobot: map<Id, set<Id>>, book: Book, id: Id)
    requires IndexesRobots(byRobot, book) && id in book
    ensures var robot := book[id].reservation.robot;
            var left := byRobot[robot] - {id};
            IndexesRobots(if left == {} then byRobot - {robot} else byRobot[robot := left], book - {id})
  {
  }

  lemma HeldKeyIsIndexed(index: map<Id, seq<Key>>, book: Book, id: Id)
    requires Indexes(index, book) && id in book && HoldsResource(book[id].reservation.state)
    ensures book[id].reservation.resource in index && KeyOf(book[id]) in index[book[id].reservation.resource]
    ensures HoldingIds(book) != {}
  {
    assert KeyOf(book[id]) in HoldingKeys(book, book[id].reservation.resource);
    assert Bucket(index, book[id].reservation.resource) == InKeyOrder(HoldingKeys(book, book[id].reservation.resource));
    assert id in HoldingIds(book);
  }

  function Kept(q: seq<Id>, keep: set<Id>): seq<Id> {
    if q == [] then []
    else Kept(q[..|q| - 1], keep) + if q[|q| - 1] in keep then [q[|q| - 1]] else []
  }

  lemma {:induction false} KeptInOrder(q: seq<Id>, keep: set<Id>)
    requires Ascending(q, IdLess)
    ensures Ascending(Kept(q, keep), IdLess)
    ensures forall x :: x in Kept(q, keep) <==> x in q && x in keep
  {
    if q != [] {
      var front := q[..|q| - 1];
      KeptInOrder(front, keep);
      assert q == front + [q[|q| - 1]];
      var kept := Kept(q, keep);
      forall i, j | 0 <= i < j < |kept| ensures IdLess(kept[i], kept[j]) {
        assert kept[i] in Kept(front, keep);
        assert kept[i] in front;
      }
    }
  }

  lemma KeptStep(q: seq<Id>, i: nat, keep: set<Id>)
    requires i <= |q|
    ensures Kept(q[..0], keep) == []
    ensures i < |q| ==> Kept(q[..i + 1], keep) == Kept(q[..i], keep) + if q[i] in keep then [q[i]] else []
  {
    if i < |q| {
      assert q[..i + 1][..i] == q[..i];
    }
  }

  lemma EmptyInIdOrder()
    ensures InIdOrder({}) == []
  {
  }

  lemma KeptIsInIdOrder(all: set<Id>, keep: set<Id>)
    requires keep <= all
    ensures Kept(InIdOrder(all), keep) == InIdOrder(keep)
  {
    KeptInOrder(InIdOrder(all), keep);
    InOrderIsUnique(Kept(InIdOrder(all), keep), keep, IdLess);
  }

  predicate Purgeable(r: Record, cutoff: Time) {
    Terminal(r.reservation.state) && r.reservation.window.end < cutoff
  }

  function Unpurged(book: Book, cutoff: Time): Book {
    map id | id in book && !Purgeable(book[id], cutoff) :: book[id]
  }

  /** Forgetting finished claims endangers nobody. */
  lemma PurgeIsSafe(d: MapData, book: Book, cutoff: Time)
    requires Safe(d, book)
    ensures Safe(d, Unpurged(book, cutoff))
  {
    hide Safe;
    assert Shrinks(book, Unpurged(book, cutoff));
    ShrinkingIsSafe(d, book, Unpurged(book, cutoff));
  }

  datatype TableStatus = TableOk | DuplicateId | UnknownId | IllegalTransition | IllegalWindow

  class ReservationTable {
    const world: Map
    var records: Book
    var holdingByResource: map<Id, seq<Key>>
    var byRobot: map<Id, set<Id>>
    var holdingCount: nat

    /** Both indices and the count describe exactly the records. */
    ghost predicate Valid()
      reads this
    {
      && world.Valid()
      && Indexes(holdingByResource, records)
      && IndexesRobots(byRobot, records)
      && holdingCount == |HoldingIds(records)|
    }

    constructor (w: Map)
      requires w.Valid()
      ensures Valid() && world == w && records == map[]
    {
      world := w;
      records, holdingByResource, byRobot, holdingCount := map[], map[], map[], 0;
      new;
      forall resource ensures HoldingKeys(map[], resource) == {} {
      }
      assert HoldingIds(map[]) == {};
    }

    // ---- write

    method Index(r: Record)
      modifies this`holdingByResource, this`holdingCount
      ensures holdingByResource == Indexed(old(holdingByResource), r) && holdingCount == old(holdingCount) + 1
    {
      holdingByResource := Indexed(holdingByResource, r);
      holdingCount := holdingCount + 1;
    }

    method Unindex(r: Record)
      requires r.reservation.resource in holdingByResource ==>
        KeyOf(r) in holdingByResource[r.reservation.resource] ==> holdingCount > 0
      modifies this`holdingByResource, this`holdingCount
      ensures r.reservation.resource in old(holdingByResource) ==> holdingByResource == Unindexed(old(holdingByResource), r)
      ensures r.reservation.resource !in old(holdingByResource) ==> holdingByResource == old(holdingByResource)
      ensures holdingCount == old(holdingCount) -
        if r.reservation.resource in old(holdingByResource) && KeyOf(r) in old(holdingByResource)[r.reservation.resource] then 1 else 0
    {
      var resource := r.reservation.resource;
      if resource !in holdingByResource {
        return;
      }
      if KeyOf(r) in holdingByResource[resource] {
        holdingCount := holdingCount - 1;
      }
      var rest := Erased(holdingByResource[resource], KeyOf(r));
      if rest == [] {
        holdingByResource := holdingByResource - {resource};
      } else {
        holdingByResource := holdingByResource[resource := rest];
      }
    }

    /** Adds a record; refuses an id already filed. Admission is the caller's to check. */
    method Insert(r: Record) returns (status: TableStatus)
      requires Valid()
      modifies this
      ensures Valid()
      ensures r.reservation.id in old(records) ==> status == DuplicateId && records == old(records)
      ensures r.reservation.id !in old(records) ==> status == TableOk && records == old(records)[r.reservation.id := r]
    {
      hide Indexes, IndexesRobots, HoldingIds, Indexed;
      if r.reservation.id in records {
        return DuplicateId;
      }
      IndexInserted(holdingByResource, records, r);
      CountInserted(records, r);
      RobotsInserted(byRobot, records, r);
      records := records[r.reservation.id := r];
      byRobot := byRobot[r.reservation.robot :=
                           (if r.reservation.robot in byRobot then byRobot[r.reservation.robot] else {}) + {r.reservation.id}];
      if HoldsResource(r.reservation.state) {
        Index(r);
      }
      return TableOk;
    }

    /** Moves a claim through the lifecycle, keeping the indices in step. */
    method SetState(id: Id, next: ReservationState, at: Time) returns (status: TableStatus)
      requires Valid()
      modifies this
      ensures Valid()
      ensures status == (if id !in old(records) then UnknownId
                         else if !TransitionAllowed(old(records)[id].reservation.state, next) then IllegalTransition
                         else TableOk)
      ensures records == (if status == TableOk then old(records)[id := WithState(old(records)[id], next, at)] else old(records))
    {
      hide Indexes, IndexesRobots, HoldingIds, Indexed, Unindexed;
      if id !in records {
        return UnknownId;
      }
      if !TransitionAllowed(records[id].reservation.state, next) {
        return IllegalTransition;
      }
      var moved := WithState(records[id], next, at);
      ghost var without := records - {id};
      IndexRemoved(holdingByResource, records, id);
      CountRemoved(records, id);
      CountInserted(without, moved);
      RobotsRewritten(byRobot, records, moved);
      assert without[id := moved] == records[id := moved];
      if HoldsResource(records[id].reservation.state) {
        HeldKeyIsIndexed(holdingByResource, records, id);
        Unindex(records[id]);
      }
      IndexInserted(holdingByResource, without, moved);
      records := records[id := moved];
      if HoldsResource(moved.reservation.state) {
        Index(moved);
      }
      return TableOk;
    }

    /** Moves the end of a live claim. The start, which is the index key, never moves. */
    method SetWindowEnd(id: Id, newEnd: Time) returns (status: TableStatus)
      requires Valid()
      modifies this`records
      ensures Valid()
      ensures status == (if id !in old(records) then UnknownId
                         else if Terminal(old(records)[id].reservation.state) then IllegalTransition
                         else if newEnd <= old(records)[id].reservation.window.start then IllegalWindow
                         else TableOk)
      ensures status != TableOk ==> records == old(records)
      ensures status == TableOk ==> records == old(records)[id := WithEnd(old(records)[id], newEnd)]
    {
      hide Indexes, IndexesRobots, HoldingIds;
      if id !in records {
        return UnknownId;
      }
      if Terminal(records[id].reservation.state) {
        return IllegalTransition;
      }
      if newEnd <= records[id].reservation.window.start {
        return IllegalWindow;
      }
      KeyKept(holdingByResource, byRobot, records, WithEnd(records[id], newEnd));
      records := records[id := WithEnd(records[id], newEnd)];
      return TableOk;
    }

    method MarkCommitted(id: Id) returns (status: TableStatus)
      requires Valid()
      modifies this`records
      ensures Valid()
      ensures status == (if id !in old(records) then UnknownId
                         else if Terminal(old(records)[id].reservation.state) then IllegalTransition
                         else TableOk)
      ensures records == (if status == TableOk then old(records)[id := old(records)[id].(committed := true)] else old(records))
    {
      hide Indexes, IndexesRobots, HoldingIds;
      if id !in records {
        return UnknownId;
      }
      if Terminal(records[id].reservation.state) {
        return IllegalTransition;
      }
      KeyKept(holdingByResource, byRobot, records, records[id].(committed := true));
      records := records[id := records[id].(committed := true)];
      return TableOk;
    }

    method Forget(id: Id)
      requires Valid() && id in records && Terminal(records[id].reservation.state)
      modifies this`records, this`byRobot
      ensures Valid() && records == old(records) - {id}
    {
      hide Indexes, IndexesRobots, HoldingIds;
      IndexRemoved(holdingByResource, records, id);
      CountRemoved(records, id);
      RobotsRemoved(byRobot, records, id);
      RobotIsIndexed(byRobot, records, id);
      var robot := records[id].reservation.robot;
      var left := byRobot[robot] - {id};
      byRobot := if left == {} then byRobot - {robot} else byRobot[robot := left];
      records := records - {id};
    }

    /** Drops finished records whose window ended before the cutoff. */
    method PurgeTerminalBefore(cutoff: Time) returns (removed: nat)
      requires Valid()
      modifies this`records, this`byRobot
      ensures Valid() && records == Unpurged(old(records), cutoff)
      ensures removed == |old(records)| - |records|
    {
      hide Valid, Unpurged, Purgeable, InIdOrder, Purged;
      removed := 0;
      ghost var before := records;
      var ids := Walk(records.Keys);
      PurgedNext(before, ids, 0, cutoff);
      for i := 0 to |ids|
        invariant Valid()
        invariant records == Purged(before, ids[..i], cutoff)
        invariant removed == |before| - |records|
      {
        var id := ids[i];
        PurgedNext(before, ids, i, cutoff);
        if id in records && Purgeable(records[id], cutoff) {
          PurgeableIsTerminal(records[id], cutoff);
          RemovedCount(records, id);
          Forget(id);
          removed := removed + 1;
        }
      }
      assert ids[..|ids|] == ids;
      AllPurged(before, ids, cutoff);
      assert InIdOrder(before.Keys) == ids;
    }

    // ---- query

    function Find(id: Id): Option<Record>
      reads this`records
    {
      if id in records then Some(records[id]) else None
    }

    method CapacityOfResource(resource: Id) returns (capacity: nat)
      requires Valid()
      ensures capacity == CapacityOf(world.data, resource)
    {
      hide Valid;
      ValidMap();
      capacity := world.CapacityAt(resource);
    }

    lemma ValidMap()
      requires Valid()
      ensures world.Valid()
    {
    }

    /** The ids that still withhold a resource, in id order. */
    method HoldingIdList() returns (ids: seq<Id>)
      ensures ids == InIdOrder(HoldingIds(records))
    {
      hide Ascending, InIdOrder;
      var all := Walk(records.Keys);
      ids := [];
      for i := 0 to |all|
        invariant ids == Kept(all[..i], HoldingIds(records))
      {
        assert all[..i + 1][..i] == all[..i];
        assert all[i] in all;
        if HoldsResource(records[all[i]].reservation.state) {
          ids := ids + [all[i]];
        }
      }
      assert all[..|all|] == all;
      KeptIsInIdOrder(records.Keys, HoldingIds(records));
    }

    method HoldingIdListFor(robot: Id) returns (ids: seq<Id>)
      requires Valid()
      ensures ids == InIdOrder(HoldingIdsFor(records, robot))
    {
      RobotsAreIndexed(robot);
      hide ReservationTable.Valid, HoldingIdsFor, Kept, InIdOrder, HoldsResource;
      ids := [];
      if robot !in byRobot {
        EmptyInIdOrder();
        return;
      }
      ghost var held := HoldingIdsFor(records, robot);
      var all := Walk(byRobot[robot]);
      KeptStep(all, 0, held);
      for i := 0 to |all|
        invariant ids == Kept(all[..i], held)
      {
        KeptStep(all, i, held);
        assert all[i] in all;
        if HoldsResource(records[all[i]].reservation.state) {
          ids := ids + [all[i]];
        }
      }
      assert all[..|all|] == all;
      KeptIsInIdOrder(byRobot[robot], held);
    }

    /** The robot index seen from one robot. */
    lemma RobotsAreIndexed(robot: Id)
      requires Valid()
      ensures robot !in byRobot ==> HoldingIdsFor(records, robot) == {}
      ensures robot in byRobot ==> HoldingIdsFor(records, robot) <= byRobot[robot]
      ensures robot in byRobot ==> forall id :: id in byRobot[robot] ==>
                id in records && (id in HoldingIdsFor(records, robot) <==> HoldsResource(records[id].reservation.state))
    {
      hide Indexes, HoldingIds, HoldsResource;
    }

    /** The other robots' holding claims that overlap the window, in (start, id) order. The scan of the
        bucket stops at the first claim starting at or after the window's end. */
    method Contenders(resource: Id, w: TimeWindow, requester: Id) returns (out: seq<Record>)
      requires Valid()
      ensures ListsClaims(out, records, ContenderIds(records, resource, requester, w))
    {
      hide IndexesRobots, HoldingIds, KeyLess, IsScan, ListsClaims, Ascending, HoldingKeys, InKeyOrder, ContenderIds;
      out := [];
      assert Bucket(holdingByResource, resource) == InKeyOrder(HoldingKeys(records, resource));
      if resource !in holdingByResource {
        NothingHeld(records, resource, requester, w);
        return;
      }
      var bucket := holdingByResource[resource];
      var i := 0;
      EmptyScan(records, resource, requester, w);
      while i < |bucket| && bucket[i].start < w.end
        invariant 0 <= i <= |bucket|
        invariant IsScan(out, records, bucket[..i], resource, requester, w)
      {
        ScanStep(out, records, bucket, i, resource, requester, w);
        var record := Find(bucket[i].id);
        if record.Some? && record.value.reservation.robot != requester && Overlaps(record.value.reservation.window, w) {
          out := out + [record.value];
        }
        i := i + 1;
      }
      ScanComplete(out, records, bucket, i, resource, requester, w);
    }

    predicate OpposesHere(resource: Id, a: ResourceUsage, b: ResourceUsage)
      requires world.Valid()
      ensures OpposesHere(resource, a, b) == OpposesDirection(world.data, resource, a, b)
    {
      world.CorridorAt(resource).Some? && a.direction.Some? && b.direction.Some? && a.direction.value != b.direction.value
    }

    predicate CrossesHere(resource: Id, a: ResourceUsage, b: ResourceUsage)
      requires world.Valid()
      ensures CrossesHere(resource, a, b) == OpposesMovement(world.data, resource, a, b)
    {
      var crossing := world.IntersectionAt(resource);
      crossing.Some? && a.movement.Some? && b.movement.Some?
      && MovementsConflict(crossing.value, a.movement.value, b.movement.value)
    }

    /** Whether a claim could be added, and who is in the way: direction first, then movements, then capacity. */
    method Check(resource: Id, requester: Id, w: TimeWindow, usage: ResourceUsage) returns (verdict: AdmissionVerdict)
      requires Valid()
      ensures verdict == Verdict(world.data, records, resource, requester, w, usage)
    {
      hide *;
      ValidMap();
      var capacity := CapacityOfResource(resource);
      var candidates := Contenders(resource, w, requester);
      ghost var d := world.data;
      ghost var opposingIds := OpposingIds(d, records, resource, requester, w, usage);
      ghost var crossingIds := CrossingIds(d, records, resource, requester, w, usage);
      var opposing, crossing := [], [];
      SelectedNone(opposingIds);
      SelectedNone(crossingIds);
      for i := 0 to |candidates|
        invariant opposing == Selected(candidates[..i], opposingIds)
        invariant crossing == Selected(candidates[..i], crossingIds)
      {
        var r := candidates[i];
        BlockerTest(d, records, candidates, r, resource, requester, w, usage);
        SelectedNext(candidates, i, opposingIds);
        SelectedNext(candidates, i, crossingIds);
        if OpposesHere(resource, usage, r.usage) {
          opposing := opposing + [r];
        } else if CrossesHere(resource, usage, r.usage) {
          crossing := crossing + [r];
        }
      }
      assert candidates[..|candidates|] == candidates;
      BlockersContend(d, records, resource, requester, w, usage);
      ghost var all := ContenderIds(records, resource, requester, w);
      SelectedAreListed(candidates, records, all, opposingIds);
      SelectedAreListed(candidates, records, all, crossingIds);
      if opposing != [] {
        verdict := Explain(OpposingDirection, capacity, 0, opposing);
        ExplainedFields(verdict, opposing, records, opposingIds);
        VerdictByDirection(d, records, resource, requester, w, usage, verdict);
        return;
      }
      NotBlocked(opposing, records, opposingIds);
      if crossing != [] {
        verdict := Explain(MovementConflict, capacity, 0, crossing);
        ExplainedFields(verdict, crossing, records, crossingIds);
        VerdictByMovement(d, records, resource, requester, w, usage, verdict);
        return;
      }
      NotBlocked(crossing, records, crossingIds);
      var peak := PeakOccupancy(candidates, w);
      CountedPeak(records, resource, requester, w, candidates, peak);
      if peak >= capacity {
        verdict := Explain(CapacityExceeded, capacity, peak, candidates);
        ExplainedFields(verdict, candidates, records, all);
      } else {
        verdict := Explain(Admitted, capacity, peak, []);
        NoneBlocking(records);
        ExplainedFields(verdict, [], records, {});
      }
      VerdictByCapacity(d, records, resource, requester, w, usage, verdict);
    }
  }

  /** The blockers in order, their owners, and the earliest any of them gives the resource back. */
  ghost predicate Explains(v: AdmissionVerdict, blockers: seq<Record>) {
    && v.blockers == Ids(blockers)
    && v.blockingRobots == InIdOrder(set r | r in blockers :: r.reservation.robot)
    && (v.nextAvailable.None? <==> blockers == [])
    && (v.nextAvailable.Some? ==>
          && (exists r :: r in blockers && r.reservation.window.end == v.nextAvailable.value)
          && (forall r :: r in blockers ==> v.nextAvailable.value <= r.reservation.window.end))
  }

  method Explain(result: AdmissionResult, capacity: nat, peak: nat, blockers: seq<Record>) returns (v: AdmissionVerdict)
    ensures v.result == result && v.capacity == capacity && v.peakHolders == peak
    ensures Explains(v, blockers)
  {
    hide InIdOrder;
    var ids, robots, earliest := [], {}, None;
    for i := 0 to |blockers|
      invariant ids == Ids(blockers[..i])
      invariant robots == set r | r in blockers[..i] :: r.reservation.robot
      invariant earliest.None? <==> i == 0
      invariant earliest.Some? ==> exists r :: r in blockers[..i] && r.reservation.window.end == earliest.value
      invariant earliest.Some? ==> forall r :: r in blockers[..i] ==> earliest.value <= r.reservation.window.end
    {
      var r := blockers[i];
      assert blockers[..i + 1] == blockers[..i] + [r];
      ids := ids + [r.reservation.id];
      robots := robots + {r.reservation.robot};
      if earliest.None? || r.reservation.window.end < earliest.value {
        assert r in blockers[..i + 1];
        earliest := Some(r.reservation.window.end);
      }
    }
    assert blockers[..|blockers|] == blockers;
    var owners := Walk(robots);
    v := AdmissionVerdict(result, capacity, peak, ids, owners, earliest);
  }

  lemma NoneBlocking(book: Book)
    ensures ListsClaims([], book, {})
  {
  }

  lemma NotBlocked(rs: seq<Record>, book: Book, ids: set<Id>)
    requires rs == [] && ListsClaims(rs, book, ids)
    ensures ids == {}
  {
  }

  lemma SelectedNone(keep: set<Id>)
    ensures Selected([], keep) == []
  {
  }

  lemma SelectedNext(rs: seq<Record>, i: nat, keep: set<Id>)
    requires i < |rs|
    ensures Selected(rs[..i + 1], keep) == Selected(rs[..i], keep) + if rs[i].reservation.id in keep then [rs[i]] else []
  {
    assert rs[..i + 1][..i] == rs[..i];
  }

  lemma VerdictByDirection(d: MapData, book: Book, resource: Id, requester: Id, w: TimeWindow, usage: ResourceUsage,
                           v: AdmissionVerdict)
    requires var ids := OpposingIds(d, book, resource, requester, w, usage);
             ids != {} && v.result == OpposingDirection && v.capacity == CapacityOf(d, resource) && v.peakHolders == 0
             && v.blockers == InClaimOrder(book, ids) && v.blockingRobots == InIdOrder(RobotsOf(book, ids)) && v.nextAvailable == EarliestEnd(book, ids)
    ensures v == Verdict(d, book, resource, requester, w, usage)
  {
    hide OpposingIds, CrossingIds, CapacityOf, InClaimOrder, RobotsOf, EarliestEnd, Peak;
  }

  lemma VerdictByMovement(d: MapData, book: Book, resource: Id, requester: Id, w: TimeWindow, usage: ResourceUsage,
                          v: AdmissionVerdict)
    requires OpposingIds(d, book, resource, requester, w, usage) == {}
    requires var ids := CrossingIds(d, book, resource, requester, w, usage);
             ids != {} && v.result == MovementConflict && v.capacity == CapacityOf(d, resource) && v.peakHolders == 0
             && v.blockers == InClaimOrder(book, ids) && v.blockingRobots == InIdOrder(RobotsOf(book, ids)) && v.nextAvailable == EarliestEnd(book, ids)
    ensures v == Verdict(d, book, resource, requester, w, usage)
  {
    hide OpposingIds, CrossingIds, CapacityOf, InClaimOrder, RobotsOf, EarliestEnd, Peak;
  }

  lemma VerdictByCapacity(d: MapData, book: Book, resource: Id, requester: Id, w: TimeWindow, usage: ResourceUsage,
                          v: AdmissionVerdict)
    requires OpposingIds(d, book, resource, requester, w, usage) == {} && CrossingIds(d, book, resource, requester, w, usage) == {}
    requires v.capacity == CapacityOf(d, resource) && v.peakHolders == Peak(book, resource, requester, w)
    requires v.result == if v.peakHolders >= v.capacity then CapacityExceeded else Admitted
    requires var ids := if v.peakHolders >= v.capacity then ContenderIds(book, resource, requester, w) else {};
             v.blockers == InClaimOrder(book, ids) && v.blockingRobots == InIdOrder(RobotsOf(book, ids)) && v.nextAvailable == EarliestEnd(book, ids)
    ensures v == Verdict(d, book, resource, requester, w, usage)
  {
    hide OpposingIds, CrossingIds, CapacityOf, InClaimOrder, RobotsOf, EarliestEnd, Peak, ContenderIds;
  }

  /** Those of the claims whose id is in `keep`. */
  function Selected(rs: seq<Record>, keep: set<Id>): seq<Record> {
    if rs == [] then []
    else
      var last := rs[|rs| - 1];
      Selected(rs[..|rs| - 1], keep) + if last.reservation.id in keep then [last] else []
  }

  lemma {:induction false} SelectedMembers(rs: seq<Record>, keep: set<Id>)
    requires Ascending(Keys(rs), KeyLess)
    ensures forall r :: r in Selected(rs, keep) <==> r in rs && r.reservation.id in keep
    ensures Ascending(Keys(Selected(rs, keep)), KeyLess)
  {
    hide KeyLess;
    if rs != [] {
      var front, last := rs[..|rs| - 1], rs[|rs| - 1];
      assert Keys(front) == Keys(rs)[..|front|];
      SelectedMembers(front, keep);
      assert rs == front + [last];
      var kept := Selected(front, keep);
      forall i | 0 <= i < |kept| ensures KeyLess(KeyOf(kept[i]), KeyOf(last)) {
        assert kept[i] in kept;
        var j :| 0 <= j < |front| && front[j] == kept[i];
        assert KeyLess(Keys(rs)[j], Keys(rs)[|front|]);
      }
      AppendGreater(kept, last);
      assert kept + [] == kept;
    }
  }

  lemma AppendGreater(rs: seq<Record>, r: Record)
    requires Ascending(Keys(rs), KeyLess)
    requires forall i :: 0 <= i < |rs| ==> KeyLess(KeyOf(rs[i]), KeyOf(r))
    ensures Ascending(Keys(rs + [r]), KeyLess)
  {
    hide KeyLess;
    var keys := Keys(rs + [r]);
    forall i, j | 0 <= i < j < |keys| ensures KeyLess(keys[i], keys[j]) {
      if j < |rs| { assert KeyLess(Keys(rs)[i], Keys(rs)[j]); }
    }
  }

  lemma SelectedAreListed(rs: seq<Record>, book: Book, all: set<Id>, keep: set<Id>)
    requires ListsClaims(rs, book, all) && keep <= all
    ensures ListsClaims(Selected(rs, keep), book, keep)
  {
    hide Ascending;
    SelectedMembers(rs, keep);
  }

  lemma BlockerTest(d: MapData, book: Book, candidates: seq<Record>, r: Record, resource: Id, requester: Id,
                    w: TimeWindow, usage: ResourceUsage)
    requires ListsClaims(candidates, book, ContenderIds(book, resource, requester, w)) && r in candidates
    ensures r.reservation.id in OpposingIds(d, book, resource, requester, w, usage) <==> OpposesDirection(d, resource, usage, r.usage)
    ensures r.reservation.id in CrossingIds(d, book, resource, requester, w, usage) <==>
      !OpposesDirection(d, resource, usage, r.usage) && OpposesMovement(d, resource, usage, r.usage)
  {
    hide OpposesDirection, OpposesMovement, Contends;
  }

  lemma BlockersContend(d: MapData, book: Book, resource: Id, requester: Id, w: TimeWindow, usage: ResourceUsage)
    ensures OpposingIds(d, book, resource, requester, w, usage) <= ContenderIds(book, resource, requester, w)
    ensures CrossingIds(d, book, resource, requester, w, usage) <= ContenderIds(book, resource, requester, w)
  {
    hide OpposesDirection, OpposesMovement, Contends;
  }

  /** An explanation of listed claims is what the verdict says of them. */
  lemma ExplainedFields(v: AdmissionVerdict, blockers: seq<Record>, book: Book, ids: set<Id>)
    requires Explains(v, blockers) && ListsClaims(blockers, book, ids)
    ensures v.blockers == InClaimOrder(book, ids)
    ensures v.blockingRobots == InIdOrder(RobotsOf(book, ids))
    ensures v.nextAvailable == EarliestEnd(book, ids)
    ensures blockers == [] <==> ids == {}
  {
    ListedInClaimOrder(blockers, book, ids);
    hide Ascending, InIdOrder, InClaimOrder;
    ListedRobots(blockers, book, ids);
    assert blockers != [] ==> blockers[0] in blockers;
    assert forall id :: id in ids ==> book[id] in blockers;
    if v.nextAvailable.Some? {
      var r :| r in blockers && r.reservation.window.end == v.nextAvailable.value;
      assert r.reservation.id in ids && book[r.reservation.id] == r;
    }
    EarliestEndIsUnique(book, ids, v.nextAvailable);
  }

  lemma ListedRobots(blockers: seq<Record>, book: Book, ids: set<Id>)
    requires ListsClaims(blockers, book, ids)
    ensures (set r | r in blockers :: r.reservation.robot) == RobotsOf(book, ids)
  {
    hide Ascending;
    forall x | x in RobotsOf(book, ids) ensures x in (set r | r in blockers :: r.reservation.robot) {
      var id :| id in ids && id in book && book[id].reservation.robot == x;
      assert book[id] in blockers;
    }
    forall r | r in blockers ensures r.reservation.robot in RobotsOf(book, ids) {
      assert r.reservation.id in ids && r.reservation.id in book;
    }
  }

  /** The claims among the scanned keys that contend, in order. */
  ghost predicate IsScan(out: seq<Record>, book: Book, scanned: seq<Key>, resource: Id, requester: Id, w: TimeWindow) {
    && (forall r :: r in out ==>
          r.reservation.id in book && book[r.reservation.id] == r && Contends(r, resource, requester, w) && KeyOf(r) in scanned)
    && (forall k :: k in scanned && k.id in book && Contends(book[k.id], resource, requester, w) ==> book[k.id] in out)
    && Ascending(Keys(out), KeyLess)
  }

  lemma NothingHeld(book: Book, resource: Id, requester: Id, w: TimeWindow)
    requires HoldingKeys(book, resource) == {}
    ensures ListsClaims([], book, ContenderIds(book, resource, requester, w))
  {
    forall id | id in ContenderIds(book, resource, requester, w) ensures KeyOf(book[id]) in HoldingKeys(book, resource) {
    }
  }

  lemma EmptyScan(book: Book, resource: Id, requester: Id, w: TimeWindow)
    ensures IsScan([], book, [], resource, requester, w)
  {
  }

  lemma ScanStep(out: seq<Record>, book: Book, bucket: seq<Key>, n: nat, resource: Id, requester: Id, w: TimeWindow)
    requires bucket == InKeyOrder(HoldingKeys(book, resource)) && n < |bucket|
    requires IsScan(out, book, bucket[..n], resource, requester, w)
    ensures bucket[n].id in book
    ensures var r := book[bucket[n].id];
            IsScan(if r.reservation.robot != requester && Overlaps(r.reservation.window, w) then out + [r] else out,
                   book, bucket[..n + 1], resource, requester, w)
  {
    hide Overlaps, KeyLess;
    var k := bucket[n];
    assert k in bucket && bucket[..n + 1] == bucket[..n] + [k];
    var r := book[k.id];
    assert Contends(r, resource, requester, w) <==> (r.reservation.robot != requester && Overlaps(r.reservation.window, w));
    if Contends(r, resource, requester, w) {
      AppendedInOrder(out, bucket, n, r);
    }
  }

  lemma AppendedInOrder(out: seq<Record>, bucket: seq<Key>, n: nat, r: Record)
    requires n < |bucket| && Ascending(bucket, KeyLess) && KeyOf(r) == bucket[n]
    requires Ascending(Keys(out), KeyLess) && forall x :: x in out ==> KeyOf(x) in bucket[..n]
    ensures Ascending(Keys(out + [r]), KeyLess)
  {
    hide KeyLess;
    var grown := out + [r];
    var keys := Keys(grown);
    forall i, j | 0 <= i < j < |keys| ensures KeyLess(keys[i], keys[j]) {
      if j < |out| {
        assert KeyLess(Keys(out)[i], Keys(out)[j]);
      } else {
        assert grown[i] in out;
        var m :| 0 <= m < n && bucket[m] == KeyOf(grown[i]);
      }
    }
  }

  lemma ScanComplete(out: seq<Record>, book: Book, bucket: seq<Key>, i: nat, resource: Id, requester: Id, w: TimeWindow)
    requires bucket == InKeyOrder(HoldingKeys(book, resource)) && i <= |bucket|
    requires IsScan(out, book, bucket[..i], resource, requester, w)
    requires i == |bucket| || bucket[i].start >= w.end
    ensures ListsClaims(out, book, ContenderIds(book, resource, requester, w))
  {
    forall id | id in ContenderIds(book, resource, requester, w) ensures book[id] in out {
      var k := KeyOf(book[id]);
      assert k in HoldingKeys(book, resource);
      var j :| 0 <= j < |bucket| && bucket[j] == k;
      assert i < j ==> KeyLess(bucket[i], bucket[j]);
      assert k in bucket[..i];
    }
  }

  lemma PurgeableIsTerminal(r: Record, cutoff: Time)
    ensures Purgeable(r, cutoff) ==> Terminal(r.reservation.state)
  {
  }

  /** The walk so far. */
  function Purged(book: Book, ids: seq<Id>, cutoff: Time): Book {
    if ids == [] then book
    else
      var b, id := Purged(book, ids[..|ids| - 1], cutoff), ids[|ids| - 1];
      if id in b && Purgeable(b[id], cutoff) then b - {id} else b
  }

  lemma PurgedNext(book: Book, ids: seq<Id>, i: nat, cutoff: Time)
    requires i <= |ids|
    ensures Purged(book, ids[..0], cutoff) == book
    ensures i < |ids| ==>
      var b := Purged(book, ids[..i], cutoff);
      Purged(book, ids[..i + 1], cutoff) == if ids[i] in b && Purgeable(b[ids[i]], cutoff) then b - {ids[i]} else b
  {
    hide Purgeable;
    if i < |ids| {
      assert ids[..i + 1][..i] == ids[..i];
    }
  }

  lemma {:induction false} PurgedMembers(book: Book, ids: seq<Id>, cutoff: Time)
    ensures Purged(book, ids, cutoff) == map id | id in book && !(id in ids && Purgeable(book[id], cutoff)) :: book[id]
  {
    hide Purgeable;
    if ids != [] {
      PurgedMembers(book, ids[..|ids| - 1], cutoff);
      assert ids == ids[..|ids| - 1] + [ids[|ids| - 1]];
    }
  }

  lemma AllPurged(book: Book, ids: seq<Id>, cutoff: Time)
    requires ids == InIdOrder(book.Keys)
    ensures Purged(book, ids, cutoff) == Unpurged(book, cutoff)
  {
    PurgedMembers(book, ids, cutoff);
  }

  lemma RemovedCount(book: Book, id: Id)
    requires id in book
    ensures |book - {id}| == |book| - 1
  {
    KeyCount(book);
    KeyCount(book - {id});
    assert (book - {id}).Keys == book.Keys - {id};
  }

  lemma KeyCount(book: Book)
    ensures |book| == |book.Keys|
  {
  }

  lemma RobotIsIndexed(byRobot: map<Id, set<Id>>, book: Book, id: Id)
    requires IndexesRobots(byRobot, book) && id in book
    ensures book[id].reservation.robot in byRobot
  {
  }

  /** Rewriting a record without touching state, resource, robot or start leaves every index right. */
  lemma KeyKept(index: map<Id, seq<Key>>, byRobot: map<Id, set<Id>>, book: Book, r: Record)
    requires Indexes(index, book) && IndexesRobots(byRobot, book) && r.reservation.id in book
    requires var b := book[r.reservation.id].reservation;
             b.state == r.reservation.state && b.resource == r.reservation.resource
             && b.robot == r.reservation.robot && b.window.start == r.reservation.window.start
    ensures Indexes(index, book[r.reservation.id := r]) && IndexesRobots(byRobot, book[r.reservation.id := r])
    ensures HoldingIds(book[r.reservation.id := r]) == HoldingIds(book)
  {
    hide IndexesRobots, Indexes;
    RobotsRewritten(byRobot, book, r);
    IndexKept(index, book, r);
    assert forall id :: id in book ==> (id in HoldingIds(book[r.reservation.id := r]) <==> id in HoldingIds(book));
  }

  lemma IndexKept(index: map<Id, seq<Key>>, book: Book, r: Record)
    requires Indexes(index, book) && r.reservation.id in book
    requires var b := book[r.reservation.id].reservation;
             b.state == r.reservation.state && b.resource == r.reservation.resource && b.window.start == r.reservation.window.start
    ensures Indexes(index, book[r.reservation.id := r])
  {
    var after := book[r.reservation.id := r];
    hide HoldingKeys, InKeyOrder, Bucket;
    forall resource
      ensures Bucket(index, resource) == InKeyOrder(HoldingKeys(after, resource))
      ensures resource in index <==> HoldingKeys(after, resource) != {}
    {
      SameKeys(book, r, resource);
      assert Bucket(index, resource) == InKeyOrder(HoldingKeys(book, resource));
    }
  }

  lemma SameKeys(book: Book, r: Record, resource: Id)
    requires r.reservation.id in book
    requires var b := book[r.reservation.id].reservation;
             b.state == r.reservation.state && b.resource == r.reservation.resource && b.window.start == r.reservation.window.start
    ensures HoldingKeys(book[r.reservation.id := r], resource) == HoldingKeys(book, resource)
  {
    var after := book[r.reservation.id := r];
    forall k | k in HoldingKeys(book, resource) ensures k in HoldingKeys(after, resource) {
      var i :| i in book && HoldsResource(book[i].reservation.state) && book[i].reservation.resource == resource && KeyOf(book[i]) == k;
      assert i in after && KeyOf(after[i]) == k;
    }
    forall k | k in HoldingKeys(after, resource) ensures k in HoldingKeys(book, resource) {
      var i :| i in after && HoldsResource(after[i].reservation.state) && after[i].reservation.resource == resource && KeyOf(after[i]) == k;
      assert i in book && KeyOf(book[i]) == k;
    }
  }
}
