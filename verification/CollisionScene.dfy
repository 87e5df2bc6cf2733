/** `CollisionScene::checkCollisions` and its broadphase callback: which link pairs count. */
module CollisionScene {
  import opened PairIndexing
  import opened Boxes
  import opened Broadphase
  import opened GpuCollisionManager

  /** A collision object is known by its address. */
  class CollisionObject {
    constructor () {
    }
  }

  /** Narrow-phase answer for two objects in their current poses. */
  type Contact = (CollisionObject, CollisionObject) -> bool

  const SEPARATOR := ":::"

  function PairKey(a: string, b: string): string {
    a + SEPARATOR + b
  }

  // ----- reading a key back ----------------------------------------------------------------------

  /** The key of (a, b) can be read again with a longer first name c, and d for the rest. */
  ghost predicate Reread(a: string, b: string, c: string, d: string) {
    || (c == a + ":" && b == ":" + d)
    || (c == a + "::" && b == "::" + d)
    || exists m :: c == a + SEPARATOR + m && b == m + SEPARATOR + d
  }

  ghost predicate Confused(a: string, b: string, c: string, d: string) {
    Reread(a, b, c, d) || Reread(c, d, a, b)
  }

  lemma LongerFirstName(a: string, b: string, c: string, d: string)
    requires PairKey(a, b) == PairKey(c, d)
    requires |a| < |c|
    ensures Reread(a, b, c, d)
  {
    var k, n, l := PairKey(a, b), |a|, |c|;
    assert k == a + SEPARATOR + b && k == c + SEPARATOR + d;
    assert k[..n] == a && k[n..n + 3] == SEPARATOR && k[n + 3..] == b;
    assert k[..l] == c && k[l..l + 3] == SEPARATOR && k[l + 3..] == d;
    if l == n + 1 {
      assert c == a + k[n..n + 1] && b == k[n + 3..l + 3] + d;
    } else if l == n + 2 {
      assert c == a + k[n..n + 2] && b == k[n + 3..l + 3] + d;
    } else {
      var m := k[n + 3..l];
      assert c == a + SEPARATOR + m && b == m + SEPARATOR + d;
    }
  }

  lemma RereadShares(a: string, b: string, c: string, d: string)
    requires Reread(a, b, c, d)
    ensures PairKey(a, b) == PairKey(c, d) && |a| < |c| && |d| < |b|
  {
    if c == a + ":" && b == ":" + d {
      assert PairKey(a, b) == a + "::::" + d == PairKey(c, d);
    } else if c == a + "::" && b == "::" + d {
      assert PairKey(a, b) == a + ":::::" + d == PairKey(c, d);
    } else {
      var m :| c == a + SEPARATOR + m && b == m + SEPARATOR + d;
      assert PairKey(a, b) == a + SEPARATOR + m + SEPARATOR + d == PairKey(c, d);
    }
  }

  /** Exactly when two pairs of names share a key, whatever the names. */
  lemma KeysShared(a: string, b: string, c: string, d: string)
    ensures PairKey(a, b) == PairKey(c, d) <==> (a == c && b == d) || Confused(a, b, c, d)
  {
    hide Reread;
    if PairKey(a, b) == PairKey(c, d) {
      if |a| < |c| {
        LongerFirstName(a, b, c, d);
      } else if |c| < |a| {
        LongerFirstName(c, d, a, b);
      } else {
        var k := PairKey(a, b);
        assert k[..|a|] == a && k[..|a|] == c;
        assert k[|a| + 3..] == b && k[|a| + 3..] == d;
      }
    } else if Reread(a, b, c, d) {
      RereadShares(a, b, c, d);
    } else if Reread(c, d, a, b) {
      RereadShares(c, d, a, b);
    }
  }

  /** For instance, these two pairs of links share one key. */
  lemma ColonNamesCollide()
    ensures PairKey("arm", ":hand") == PairKey("arm:", "hand")
  {
    assert PairKey("arm", ":hand") == "arm::::hand";
    assert PairKey("arm:", "hand") == "arm::::hand";
  }

  predicate SeparatorAt(name: string, i: nat) {
    i + 3 <= |name| && name[i..i + 3] == SEPARATOR
  }

  predicate HasSeparator(name: string) {
    exists i: nat :: i <= |name| && SeparatorAt(name, i)
  }

  predicate EndsWithColon(name: string) {
    name != [] && name[|name| - 1] == ':'
  }

  predicate StartsWithColon(name: string) {
    name != [] && name[0] == ':'
  }

  lemma RereadShape(a: string, b: string, c: string, d: string)
    requires Reread(a, b, c, d)
    ensures EndsWithColon(c) || HasSeparator(c)
    ensures StartsWithColon(b) || HasSeparator(b)
  {
    if m :| c == a + SEPARATOR + m && b == m + SEPARATOR + d {
      assert SeparatorAt(c, |a|);
      assert SeparatorAt(b, |m|);
    }
  }

  /** Splitting a name around a separator. */
  lemma SplitAtSeparator(name: string) returns (before: string, after: string)
    requires HasSeparator(name)
    ensures name == before + SEPARATOR + after
  {
    var i: nat :| i <= |name| && SeparatorAt(name, i);
    before, after := name[..i], name[i + 3..];
    assert name == name[..i] + name[i..i + 3] + name[i + 3..];
  }

  lemma FirstNameReread(c: string) returns (a: string, b: string)
    requires EndsWithColon(c) || HasSeparator(c)
    ensures Reread(a, b, c, "")
  {
    if EndsWithColon(c) {
      a, b := c[..|c| - 1], ":";
      assert c == a + ":" && b == ":" + "";
    } else {
      var m;
      a, m := SplitAtSeparator(c);
      b := m + SEPARATOR + "";
    }
  }

  lemma SecondNameReread(b: string) returns (c: string, d: string)
    requires StartsWithColon(b) || HasSeparator(b)
    ensures Reread("", b, c, d)
  {
    if StartsWithColon(b) {
      c, d := "" + ":", b[1..];
      assert b == ":" + d;
    } else {
      var m;
      m, d := SplitAtSeparator(b);
      c := "" + SEPARATOR + m;
    }
  }

  /** A first name can be confused with a shorter one if and only if it ends with a colon or holds
      the separator ... */
  lemma FirstNameConfused(c: string)
    ensures (exists a, b, d :: |a| < |c| && PairKey(a, b) == PairKey(c, d)) <==> EndsWithColon(c) || HasSeparator(c)
  {
    hide PairKey, Reread, HasSeparator, EndsWithColon;
    if a, b, d :| |a| < |c| && PairKey(a, b) == PairKey(c, d) {
      LongerFirstName(a, b, c, d);
      RereadShape(a, b, c, d);
    }
    if EndsWithColon(c) || HasSeparator(c) {
      var a, b := FirstNameReread(c);
      RereadShares(a, b, c, "");
    }
  }

  /** ... and a second name if and only if it starts with a colon or holds the separator. */
  lemma SecondNameConfused(b: string)
    ensures (exists a, c, d :: |d| < |b| && PairKey(a, b) == PairKey(c, d)) <==> StartsWithColon(b) || HasSeparator(b)
  {
    hide PairKey, Reread, HasSeparator, StartsWithColon;
    if a, c, d :| |d| < |b| && PairKey(a, b) == PairKey(c, d) {
      KeyLength(a, b, c, d);
      LongerFirstName(a, b, c, d);
      RereadShape(a, b, c, d);
    }
    if StartsWithColon(b) || HasSeparator(b) {
      var c, d := SecondNameReread(b);
      RereadShares("", b, c, d);
    }
  }

  lemma KeyLength(a: string, b: string, c: string, d: string)
    requires PairKey(a, b) == PairKey(c, d)
    ensures |a| + |b| == |c| + |d|
  {
    assert |PairKey(a, b)| == |a| + 3 + |b|;
    assert |PairKey(c, d)| == |c| + 3 + |d|;
  }

  /** No name holds the separator, and colons do not meet: none of them ends with one while
      another starts with one. */
  ghost predicate Separable(names: set<string>) {
    && (forall x :: x in names ==> !HasSeparator(x))
    && (forall x, y :: x in names && y in names ==> !(EndsWithColon(x) && StartsWithColon(y)))
  }

  lemma SeparableNotReread(names: set<string>, a: string, b: string, c: string, d: string)
    requires Separable(names) && b in names && c in names
    ensures !Reread(a, b, c, d)
  {
    hide Reread, HasSeparator, EndsWithColon, StartsWithColon;
    if Reread(a, b, c, d) {
      RereadShape(a, b, c, d);
    }
  }

  /** Such names are recovered from their key. */
  lemma PairKeyInjective(names: set<string>, a: string, b: string, c: string, d: string)
    requires Separable(names) && {a, b, c, d} <= names
    ensures PairKey(a, b) == PairKey(c, d) <==> a == c && b == d
  {
    hide Reread, PairKey, Separable;
    KeysShared(a, b, c, d);
    SeparableNotReread(names, a, b, c, d);
    SeparableNotReread(names, c, d, a, b);
  }

  // ----- adjacency -----------------------------------------------------------------------------

  type LinkPair = (string, string)

  predicate Adjacent(pairs: seq<LinkPair>, a: string, b: string) {
    (a, b) in pairs || (b, a) in pairs
  }

  /** The set `buildAdjacencyList` fills holds both orders of every model pair. */
  ghost predicate HoldsPairs(keys: set<string>, pairs: seq<LinkPair>) {
    && (forall p :: p in pairs ==> PairKey(p.0, p.1) in keys && PairKey(p.1, p.0) in keys)
    && (forall k :: k in keys ==> exists p :: p in pairs && (k == PairKey(p.0, p.1) || k == PairKey(p.1, p.0)))
  }

  /** The callback's string test. */
  predicate KeyTest(keys: set<string>, a: string, b: string) {
    PairKey(a, b) in keys || PairKey(b, a) in keys
  }

  /** A key of the model pair p can be taken for a key of a and b. */
  ghost predicate Misread(p: LinkPair, a: string, b: string) {
    Confused(p.0, p.1, a, b) || Confused(p.1, p.0, a, b) || Confused(p.0, p.1, b, a) || Confused(p.1, p.0, b, a)
  }

  ghost predicate SomeMisread(pairs: seq<LinkPair>, a: string, b: string) {
    exists p :: p in pairs && Misread(p, a, b)
  }

  /** The model pair p alone makes the string test say adjacent. */
  predicate Matches(p: LinkPair, a: string, b: string) {
    || PairKey(p.0, p.1) == PairKey(a, b) || PairKey(p.1, p.0) == PairKey(a, b)
    || PairKey(p.0, p.1) == PairKey(b, a) || PairKey(p.1, p.0) == PairKey(b, a)
  }

  lemma MatchesExact(p: LinkPair, a: string, b: string)
    ensures Matches(p, a, b) <==> p == (a, b) || p == (b, a) || Misread(p, a, b)
  {
    hide PairKey, Confused;
    KeysShared(p.0, p.1, a, b);
    KeysShared(p.1, p.0, a, b);
    KeysShared(p.0, p.1, b, a);
    KeysShared(p.1, p.0, b, a);
  }

  /** The string test says adjacent exactly for adjacent links and for misread ones. */
  lemma KeyTestExact(keys: set<string>, pairs: seq<LinkPair>, a: string, b: string)
    requires HoldsPairs(keys, pairs)
    ensures KeyTest(keys, a, b) <==> Adjacent(pairs, a, b) || SomeMisread(pairs, a, b)
  {
    hide PairKey, Misread;
    forall p: LinkPair
      ensures Matches(p, a, b) <==> p == (a, b) || p == (b, a) || Misread(p, a, b)
    {
      MatchesExact(p, a, b);
    }
    assert KeyTest(keys, a, b) <==> exists p :: p in pairs && Matches(p, a, b);
  }

  /** No two non-adjacent links are misread. */
  ghost predicate NamesClear(links: seq<Link>, pairs: seq<LinkPair>) {
    forall i, j :: 0 <= i < j < |links| ==>
      Adjacent(pairs, links[i].name, links[j].name) || !SomeMisread(pairs, links[i].name, links[j].name)
  }

  ghost predicate AllNamed(links: seq<Link>, pairs: seq<LinkPair>, names: set<string>) {
    && (forall i :: 0 <= i < |links| ==> links[i].name in names)
    && (forall p :: p in pairs ==> p.0 in names && p.1 in names)
  }

  lemma SeparableNotMisread(names: set<string>, p: LinkPair, a: string, b: string)
    requires Separable(names) && {p.0, p.1, a, b} <= names
    ensures !Misread(p, a, b)
  {
    hide Separable, Reread;
    forall x, y, u, v | {x, y, u, v} <= names
      ensures !Reread(x, y, u, v)
    {
      SeparableNotReread(names, x, y, u, v);
    }
  }

  lemma SeparableNamesClear(links: seq<Link>, pairs: seq<LinkPair>, names: set<string>)
    requires Separable(names) && AllNamed(links, pairs, names)
    ensures NamesClear(links, pairs)
  {
    hide Separable, Misread, Adjacent;
    forall i, j | 0 <= i < j < |links|
      ensures !SomeMisread(pairs, links[i].name, links[j].name)
    {
      forall p | p in pairs
        ensures !Misread(p, links[i].name, links[j].name)
      {
        SeparableNotMisread(names, p, links[i].name, links[j].name);
      }
    }
  }

  // ----- the callback ----------------------------------------------------------------------------

  function FindPtr(ptrs: seq<CollisionObject>, obj: CollisionObject, i: nat): (k: nat)
    requires i <= |ptrs|
    ensures i <= k <= |ptrs|
    ensures k < |ptrs| ==> ptrs[k] == obj
    ensures forall l :: i <= l < k ==> ptrs[l] != obj
    decreases |ptrs| - i
  {
    if i == |ptrs| || ptrs[i] == obj then i else FindPtr(ptrs, obj, i + 1)
  }

  /** What one report makes the callback do: skip unknown and adjacent links, else ask the narrow phase. */
  predicate Collides(ptrs: seq<CollisionObject>, names: seq<string>, keys: set<string>, contact: Contact,
                     o1: CollisionObject, o2: CollisionObject)
    requires |ptrs| == |names|
  {
    var i, j := FindPtr(ptrs, o1, 0), FindPtr(ptrs, o2, 0);
    && i < |ptrs| && j < |ptrs|
    && !KeyTest(keys, names[i], names[j])
    && contact(o1, o2)
  }

  class NarrowPhaseCallback {
    const ptrs: seq<CollisionObject>
    const names: seq<string>
    const adjacent: set<string>
    const contact: Contact
    var collided: bool

    constructor (ptrs: seq<CollisionObject>, names: seq<string>, adjacent: set<string>, contact: Contact)
      requires |ptrs| == |names|
      ensures this.ptrs == ptrs && this.names == names && this.adjacent == adjacent && this.contact == contact
      ensures !collided
    {
      this.ptrs, this.names, this.adjacent, this.contact := ptrs, names, adjacent, contact;
      collided := false;
    }

    method Collide(o1: CollisionObject, o2: CollisionObject) returns (stop: bool)
      requires |ptrs| == |names|
      modifies this`collided
      ensures stop == Collides(ptrs, names, adjacent, contact, o1, o2)
      ensures collided == (old(collided) || stop)
    {
      var idx1 := FindIndex(o1);
      var idx2 := FindIndex(o2);
      if idx1 == |ptrs| || idx2 == |ptrs| {
        return false;
      }
      if PairKey(names[idx1], names[idx2]) in adjacent || PairKey(names[idx2], names[idx1]) in adjacent {
        return false;
      }
      if contact(o1, o2) {
        collided := true;
        return true;
      }
      return false;
    }

    /** Linear search; the length stands for the source's SIZE_MAX. */
    method FindIndex(obj: CollisionObject) returns (i: nat)
      ensures i == FindPtr(ptrs, obj, 0)
    {
      i := 0;
      while i < |ptrs|
        invariant 0 <= i <= |ptrs|
        invariant FindPtr(ptrs, obj, i) == FindPtr(ptrs, obj, 0)
      {
        if ptrs[i] == obj {
          return;
        }
        i := i + 1;
      }
    }
  }

  // ----- the scene ---------------------------------------------------------------------------------

  datatype Link = Link(name: string, obj: CollisionObject)

  type Report = (CollisionObject, CollisionObject)

  /** Each link allocates its own object. */
  ghost predicate DistinctObjects(links: seq<Link>) {
    forall i, j :: 0 <= i < j < |links| ==> links[i].obj != links[j].obj
  }

  function Objects(links: seq<Link>): (ptrs: seq<CollisionObject>)
    ensures |ptrs| == |links|
    ensures forall i :: 0 <= i < |links| ==> ptrs[i] == links[i].obj
  {
    seq(|links|, i requires 0 <= i < |links| => links[i].obj)
  }

  function Names(links: seq<Link>): (names: seq<string>)
    ensures |names| == |links|
    ensures forall i :: 0 <= i < |links| ==> names[i] == links[i].name
  {
    seq(|links|, i requires 0 <= i < |links| => links[i].name)
  }

  /** The answer: no report makes the callback stop. */
  predicate Free(links: seq<Link>, keys: set<string>, contact: Contact, reports: seq<Report>) {
    forall r :: r in reports ==> !Collides(Objects(links), Names(links), keys, contact, r.0, r.1)
  }

  /** Two links that must not touch do touch. */
  ghost predicate InContact(links: seq<Link>, pairs: seq<LinkPair>, contact: Contact) {
    exists i, j :: 0 <= i < j < |links| && ForbiddenContact(links, pairs, contact, i, j)
  }

  predicate ForbiddenContact(links: seq<Link>, pairs: seq<LinkPair>, contact: Contact, i: int, j: int)
    requires 0 <= i < |links| && 0 <= j < |links|
  {
    !Adjacent(pairs, links[i].name, links[j].name) && contact(links[i].obj, links[j].obj)
  }

  ghost predicate SymmetricOn(links: seq<Link>, contact: Contact) {
    forall i, j :: 0 <= i < |links| && 0 <= j < |links| ==>
      contact(links[i].obj, links[j].obj) == contact(links[j].obj, links[i].obj)
  }

  /** The broadphase offers, in any order and among any others, every pair of links whose boxes
      overlap, and never an object with itself. */
  ghost predicate OffersOverlaps(links: seq<Link>, overlap: Contact, reports: seq<Report>) {
    && (forall i, j :: 0 <= i < j < |links| && overlap(links[i].obj, links[j].obj) ==>
          (links[i].obj, links[j].obj) in reports || (links[j].obj, links[i].obj) in reports)
    && (forall r :: r in reports ==> r.0 != r.1)
  }

  /** Bodies that touch have overlapping boxes. */
  ghost predicate ContactNeedsOverlap(links: seq<Link>, contact: Contact, overlap: Contact) {
    forall i, j :: 0 <= i < |links| && 0 <= j < |links| && contact(links[i].obj, links[j].obj) ==>
      overlap(links[i].obj, links[j].obj)
  }

  class Scene {
    var links: seq<Link>
    var adjacentPairs: set<string>

    constructor (links: seq<Link>)
      ensures this.links == links && adjacentPairs == {}
    {
      this.links := links;
      adjacentPairs := {};
    }

    method BuildAdjacencyList(modelPairs: seq<LinkPair>)
      requires adjacentPairs == {}
      modifies this`adjacentPairs
      ensures HoldsPairs(adjacentPairs, modelPairs)
    {
      hide HoldsPairs;
      NoPairs();
      var i := 0;
      assert modelPairs[..i] == [];
      while i < |modelPairs|
        invariant 0 <= i <= |modelPairs|
        invariant HoldsPairs(adjacentPairs, modelPairs[..i])
      {
        var (a, b) := modelPairs[i];
        ghost var before := adjacentPairs;
        adjacentPairs := adjacentPairs + {PairKey(a, b)};
        adjacentPairs := adjacentPairs + {PairKey(b, a)};
        OneMorePair(before, modelPairs[..i], (a, b));
        assert modelPairs[..i + 1] == modelPairs[..i] + [(a, b)];
        i := i + 1;
      }
      assert modelPairs[..i] == modelPairs;
    }

    /** `reports` is what the broadphase would offer if it were never stopped. */
    method CheckCollisions(reports: seq<Report>, contact: Contact) returns (free: bool)
      ensures free <==> Free(links, adjacentPairs, contact, reports)
    {
      hide Collides;
      var ptrs, names := ListLinks();
      var cb := new NarrowPhaseCallback(ptrs, names, adjacentPairs, contact);
      var r := 0;
      while r < |reports|
        invariant 0 <= r <= |reports|
        invariant !cb.collided
        invariant forall l :: 0 <= l < r ==> !Collides(ptrs, names, adjacentPairs, contact, reports[l].0, reports[l].1)
      {
        var stop := cb.Collide(reports[r].0, reports[r].1);
        if stop {
          assert reports[r] in reports;
          return !cb.collided;
        }
        r := r + 1;
      }
      return !cb.collided;
    }

    method ListLinks() returns (ptrs: seq<CollisionObject>, names: seq<string>)
      ensures ptrs == Objects(links) && names == Names(links)
    {
      ptrs, names := [], [];
      var k := 0;
      while k < |links|
        invariant 0 <= k <= |links| && |ptrs| == |names| == k
        invariant forall l :: 0 <= l < k ==> ptrs[l] == links[l].obj && names[l] == links[l].name
      {
        ptrs, names := ptrs + [links[k].obj], names + [links[k].name];
        k := k + 1;
      }
    }
  }

  lemma OneMorePair(keys: set<string>, pairs: seq<LinkPair>, p: LinkPair)
    requires HoldsPairs(keys, pairs)
    ensures HoldsPairs(keys + {PairKey(p.0, p.1)} + {PairKey(p.1, p.0)}, pairs + [p])
  {
    hide PairKey;
    var all, more := keys + {PairKey(p.0, p.1)} + {PairKey(p.1, p.0)}, pairs + [p];
    assert p in more;
    forall k | k in all
      ensures exists q :: q in more && (k == PairKey(q.0, q.1) || k == PairKey(q.1, q.0))
    {
      if k in keys {
        var q :| q in pairs && (k == PairKey(q.0, q.1) || k == PairKey(q.1, q.0));
        assert q in more;
      }
    }
  }

  lemma NoPairs()
    ensures HoldsPairs({}, [])
  {
  }

  // ----- when the answer is right --------------------------------------------------------------------

  lemma FindsLink(links: seq<Link>, i: nat)
    requires DistinctObjects(links) && i < |links|
    ensures FindPtr(Objects(links), links[i].obj, 0) == i
  {
    var k := FindPtr(Objects(links), links[i].obj, 0);
    assert Objects(links)[i] == links[i].obj;
  }

  /** What the callback does with a report of two links. */
  lemma LinkReport(links: seq<Link>, keys: set<string>, contact: Contact, i: nat, j: nat)
    requires DistinctObjects(links) && i < |links| && j < |links|
    ensures Collides(Objects(links), Names(links), keys, contact, links[i].obj, links[j].obj)
       <==> !KeyTest(keys, links[i].name, links[j].name) && contact(links[i].obj, links[j].obj)
  {
    hide KeyTest;
    FindsLink(links, i);
    FindsLink(links, j);
  }

  /** A report that stops the broadphase is of two links in forbidden contact. */
  lemma StopMeansContact(links: seq<Link>, keys: set<string>, pairs: seq<LinkPair>, contact: Contact, r: Report)
    requires HoldsPairs(keys, pairs) && SymmetricOn(links, contact) && r.0 != r.1
    requires Collides(Objects(links), Names(links), keys, contact, r.0, r.1)
    ensures InContact(links, pairs, contact)
  {
    hide KeyTest, HoldsPairs, SomeMisread;
    var i, j := FindPtr(Objects(links), r.0, 0), FindPtr(Objects(links), r.1, 0);
    assert i != j;
    KeyTestExact(keys, pairs, links[i].name, links[j].name);
    if i < j {
      assert ForbiddenContact(links, pairs, contact, i, j);
    } else {
      assert ForbiddenContact(links, pairs, contact, j, i);
    }
  }

  /** The scene is as collision objects, boxes and the broadphase promise. */
  ghost predicate Promised(links: seq<Link>, contact: Contact, overlap: Contact, reports: seq<Report>) {
    SymmetricOn(links, contact) && ContactNeedsOverlap(links, contact, overlap) && OffersOverlaps(links, overlap, reports)
  }

  lemma FreeMeansNoContact(links: seq<Link>, keys: set<string>, pairs: seq<LinkPair>,
                           contact: Contact, overlap: Contact, reports: seq<Report>)
    requires DistinctObjects(links) && HoldsPairs(keys, pairs) && NamesClear(links, pairs)
    requires Promised(links, contact, overlap, reports) && Free(links, keys, contact, reports)
    ensures !InContact(links, pairs, contact)
  {
    hide KeyTest, HoldsPairs, SomeMisread, Collides, Adjacent, DistinctObjects;
    forall i, j | 0 <= i < j < |links|
      ensures !ForbiddenContact(links, pairs, contact, i, j)
    {
      LinkReport(links, keys, contact, i, j);
      LinkReport(links, keys, contact, j, i);
      KeyTestExact(keys, pairs, links[i].name, links[j].name);
      KeyTestExact(keys, pairs, links[j].name, links[i].name);
      SymmetricTests(pairs, links[i].name, links[j].name);
    }
  }

  lemma SymmetricTests(pairs: seq<LinkPair>, a: string, b: string)
    ensures Adjacent(pairs, a, b) == Adjacent(pairs, b, a)
    ensures SomeMisread(pairs, a, b) == SomeMisread(pairs, b, a)
  {
    hide Confused;
  }

  /** With a broadphase that offers every overlapping pair, in any order, the answer is right for
      every pose if and only if no two non-adjacent links have names that are misread. */
  lemma CheckRightExactlyWhen(links: seq<Link>, keys: set<string>, pairs: seq<LinkPair>)
    requires DistinctObjects(links) && HoldsPairs(keys, pairs)
    ensures (forall contact, overlap, reports :: Promised(links, contact, overlap, reports) ==>
              (Free(links, keys, contact, reports) <==> !InContact(links, pairs, contact)))
       <==> NamesClear(links, pairs)
  {
    hide Collides, HoldsPairs, NamesClear, OffersOverlaps, Adjacent, SomeMisread, DistinctObjects;
    if NamesClear(links, pairs) {
      forall contact, overlap, reports | Promised(links, contact, overlap, reports)
        ensures Free(links, keys, contact, reports) <==> !InContact(links, pairs, contact)
      {
        AnswerRight(links, keys, pairs, contact, overlap, reports);
      }
    } else {
      var contact, overlap, reports := MisreadScene(links, keys, pairs);
    }
  }

  lemma AnswerRight(links: seq<Link>, keys: set<string>, pairs: seq<LinkPair>,
                    contact: Contact, overlap: Contact, reports: seq<Report>)
    requires DistinctObjects(links) && HoldsPairs(keys, pairs) && NamesClear(links, pairs)
    requires Promised(links, contact, overlap, reports)
    ensures Free(links, keys, contact, reports) <==> !InContact(links, pairs, contact)
  {
    hide Collides, HoldsPairs, NamesClear, DistinctObjects, InContact;
    if Free(links, keys, contact, reports) {
      FreeMeansNoContact(links, keys, pairs, contact, overlap, reports);
    } else {
      var r :| r in reports && Collides(Objects(links), Names(links), keys, contact, r.0, r.1);
      StopMeansContact(links, keys, pairs, contact, r);
    }
  }

  /** Such a scene: the model pair ("arm:", "hand") is misread as ("arm", ":hand"). */
  lemma MisreadLinks(arm: CollisionObject, hand: CollisionObject, arm2: CollisionObject, hand2: CollisionObject)
    ensures !NamesClear([Link("arm", arm), Link(":hand", hand), Link("arm:", arm2), Link("hand", hand2)], [("arm:", "hand")])
  {
    hide Confused;
    var links, p := [Link("arm", arm), Link(":hand", hand), Link("arm:", arm2), Link("hand", hand2)], ("arm:", "hand");
    ColonNamesCollide();
    KeysShared("arm:", "hand", "arm", ":hand");
    assert p in [p] && Misread(p, "arm", ":hand");
    assert SomeMisread([p], links[0].name, links[1].name);
    assert !Adjacent([p], links[0].name, links[1].name);
  }

  /** Only these two objects touch. */
  function OnlyContact(a: CollisionObject, b: CollisionObject): Contact {
    (x, y) => (x == a && y == b) || (x == b && y == a)
  }

  lemma OnlyContactFacts(links: seq<Link>, pairs: seq<LinkPair>, i: nat, j: nat)
    requires DistinctObjects(links) && i < j < |links|
    requires !Adjacent(pairs, links[i].name, links[j].name)
    ensures var contact := OnlyContact(links[i].obj, links[j].obj);
            SymmetricOn(links, contact) && InContact(links, pairs, contact)
  {
    assert ForbiddenContact(links, pairs, OnlyContact(links[i].obj, links[j].obj), i, j);
  }

  lemma MisreadScene(links: seq<Link>, keys: set<string>, pairs: seq<LinkPair>)
    returns (contact: Contact, overlap: Contact, reports: seq<Report>)
    requires DistinctObjects(links) && HoldsPairs(keys, pairs) && !NamesClear(links, pairs)
    ensures Promised(links, contact, overlap, reports)
    ensures Free(links, keys, contact, reports) && InContact(links, pairs, contact)
  {
    hide HoldsPairs, SomeMisread, Adjacent, Collides, KeyTest;
    var i, j :| 0 <= i < j < |links| && !Adjacent(pairs, links[i].name, links[j].name)
                && SomeMisread(pairs, links[i].name, links[j].name);
    contact := OnlyContact(links[i].obj, links[j].obj);
    overlap, reports := contact, [(links[i].obj, links[j].obj)];
    OnlyContactFacts(links, pairs, i, j);
    KeyTestExact(keys, pairs, links[i].name, links[j].name);
    LinkReport(links, keys, contact, i, j);
  }

  // ----- GPU mode --------------------------------------------------------------------------------------

  type Placement = CollisionObject -> Aabb

  function Bodies(links: seq<Link>, box: Placement): (objs: seq<Body>)
    ensures |objs| == |links|
    ensures forall i :: 0 <= i < |links| ==> objs[i] == Body(i, box(links[i].obj))
  {
    seq(|links|, i requires 0 <= i < |links| => Body(i, box(links[i].obj)))
  }

  function BoxOverlap(box: Placement): Contact {
    (a: CollisionObject, b: CollisionObject) => Overlap(box(a), box(b))
  }

  /** What the manager's self check reports for the flags its kernel wrote. */
  ghost function GpuReports(links: seq<Link>, overlaps: seq<bool>): (reports: seq<Report>)
    requires |overlaps| == PairCount(|links|)
  {
    var pairs := SelfCandidates(|links|, overlaps, |overlaps|);
    assert forall k :: 0 <= k < |pairs| ==> ValidPair(|links|, pairs[k]);
    seq(|pairs|, k requires 0 <= k < |pairs| => (links[pairs[k].i].obj, links[pairs[k].j].obj))
  }

  lemma GpuReportsArePairs(links: seq<Link>, overlaps: seq<bool>)
    requires |overlaps| == PairCount(|links|)
    ensures forall r :: r in GpuReports(links, overlaps) <==>
      exists p :: p in SelfCandidates(|links|, overlaps, |overlaps|) && r == (links[p.i].obj, links[p.j].obj)
  {
    hide SelfCandidates;
    var pairs, reports := SelfCandidates(|links|, overlaps, |overlaps|), GpuReports(links, overlaps);
    forall p | p in pairs
      ensures (links[p.i].obj, links[p.j].obj) in reports
    {
      var k :| 0 <= k < |pairs| && pairs[k] == p;
      assert reports[k] == (links[p.i].obj, links[p.j].obj);
    }
    forall r | r in reports
      ensures exists p :: p in pairs && r == (links[p.i].obj, links[p.j].obj)
    {
      var k :| 0 <= k < |reports| && reports[k] == r;
      assert pairs[k] in pairs;
    }
  }

  ghost predicate GpuScene(links: seq<Link>, box: Placement, contact: Contact, overlaps: seq<bool>) {
    && FromSelfKernel(overlaps, Bodies(links, box))
    && SymmetricOn(links, contact)
    && ContactNeedsOverlap(links, contact, BoxOverlap(box))
  }

  /** Every two links are adjacent, but perhaps the first two. */
  ghost predicate OnlyFirstPairMatters(links: seq<Link>, pairs: seq<LinkPair>) {
    forall i, j :: 0 <= i < j < |links| && !Adjacent(pairs, links[i].name, links[j].name) ==> i == 0 && j == 1
  }

  /** In GPU mode the answer is right for every pose, and every content of the cells the kernel
      cannot decode, if and only if no pair of links but the first can be in forbidden contact. */
  lemma GpuModeRightExactlyWhen(links: seq<Link>, keys: set<string>, pairs: seq<LinkPair>)
    requires DistinctObjects(links) && HoldsPairs(keys, pairs) && NamesClear(links, pairs)
    ensures (forall box, contact, overlaps :: GpuScene(links, box, contact, overlaps) ==>
              (Free(links, keys, contact, GpuReports(links, overlaps)) <==> !InContact(links, pairs, contact)))
       <==> OnlyFirstPairMatters(links, pairs)
  {
    hide Collides, HoldsPairs, NamesClear, Adjacent, DistinctObjects, SelfCandidates, InContact;
    if OnlyFirstPairMatters(links, pairs) {
      forall box, contact, overlaps | GpuScene(links, box, contact, overlaps)
        ensures Free(links, keys, contact, GpuReports(links, overlaps)) <==> !InContact(links, pairs, contact)
      {
        GpuAnswerRight(links, keys, pairs, box, contact, overlaps);
      }
    } else {
      var i, j :| 0 <= i < j < |links| && !Adjacent(pairs, links[i].name, links[j].name) && !(i == 0 && j == 1);
      var box, contact, overlaps := MissedContact(links, keys, pairs, i, j);
    }
  }

  /** No contact outside the first pair is ever allowed for, and that pair is reported by its own boxes. */
  lemma GpuAnswerRight(links: seq<Link>, keys: set<string>, pairs: seq<LinkPair>,
                       box: Placement, contact: Contact, overlaps: seq<bool>)
    requires DistinctObjects(links) && HoldsPairs(keys, pairs) && NamesClear(links, pairs)
    requires GpuScene(links, box, contact, overlaps) && OnlyFirstPairMatters(links, pairs)
    ensures Free(links, keys, contact, GpuReports(links, overlaps)) <==> !InContact(links, pairs, contact)
  {
    hide Collides, HoldsPairs, NamesClear, Adjacent, SomeMisread, KeyTest, SelfCandidates, KernelPair, PairCount,
         HostIndex, Overlap;
    var reports := GpuReports(links, overlaps);
    GpuReportsArePairs(links, overlaps);
    if !Free(links, keys, contact, reports) {
      var r :| r in reports && Collides(Objects(links), Names(links), keys, contact, r.0, r.1);
      StopMeansContact(links, keys, pairs, contact, r);
    } else if InContact(links, pairs, contact) {
      var i, j :| 0 <= i < j < |links| && ForbiddenContact(links, pairs, contact, i, j);
      SelfCheckReportsAnotherPair(Bodies(links, box), overlaps, Pair(i, j));
      assert BoxOverlap(box)(links[i].obj, links[j].obj);
      assert Pair(i, j) in SelfCandidates(|links|, overlaps, |overlaps|);
      assert (links[i].obj, links[j].obj) in reports;
      FirstPairClear(links, pairs, i, j);
      KeyTestExact(keys, pairs, links[i].name, links[j].name);
      LinkReport(links, keys, contact, i, j);
      assert false;
    }
  }

  lemma FirstPairClear(links: seq<Link>, pairs: seq<LinkPair>, i: nat, j: nat)
    requires NamesClear(links, pairs) && i < j < |links|
    ensures Adjacent(pairs, links[i].name, links[j].name) || !SomeMisread(pairs, links[i].name, links[j].name)
  {
  }

  /** Links i and j touch, all others are apart, and the answer is still "free". */
  lemma MissedContact(links: seq<Link>, keys: set<string>, pairs: seq<LinkPair>, i: nat, j: nat)
    returns (box: Placement, contact: Contact, overlaps: seq<bool>)
    requires DistinctObjects(links) && HoldsPairs(keys, pairs)
    requires i < j < |links| && !(i == 0 && j == 1)
    requires !Adjacent(pairs, links[i].name, links[j].name)
    ensures GpuScene(links, box, contact, overlaps)
    ensures Free(links, keys, contact, GpuReports(links, overlaps)) && InContact(links, pairs, contact)
  {
    hide Collides, HoldsPairs, Adjacent, SelfCandidates, KernelPair, PairCount, HostIndex, Overlap, InContact, KeyTest;
    var n, p := |links|, Pair(i, j);
    var ptrs := Objects(links);
    box := (o: CollisionObject) => PointBox(if FindPtr(ptrs, o, 0) == j then i else FindPtr(ptrs, o, 0));
    contact := OnlyContact(links[i].obj, links[j].obj);
    overlaps := MissedPair(n, p);
    forall l: nat | l < n
      ensures FindPtr(ptrs, links[l].obj, 0) == l
    {
      FindsLink(links, l);
    }
    assert Bodies(links, box) == OnlyPairTouches(n, p);
    OnlyContactFacts(links, pairs, i, j);
    PointBoxes(i, i);
    GpuReportsArePairs(links, overlaps);
    assert ContactNeedsOverlap(links, contact, BoxOverlap(box));
    forall r | r in GpuReports(links, overlaps)
      ensures !Collides(ptrs, Names(links), keys, contact, r.0, r.1)
    {
      var q :| q in SelfCandidates(n, overlaps, |overlaps|) && r == (links[q.i].obj, links[q.j].obj);
      LinkReport(links, keys, contact, q.i, q.j);
    }
  }
}
