/** The open-addressing table that counts how often each state fingerprint was visited. */
module Coverage {
  import opened Words

  const SIZE: nat := 0x1_0000
  const RARE: nat := 3
  const COUNT_MAX: nat := 0xFFFF

  function Home(fp: u32): (h: nat)
    ensures h < SIZE
  {
    Wrap32(fp * 2654435761) % SIZE
  }

  function Next(slot: nat): nat {
    if slot + 1 == SIZE then 0 else slot + 1
  }

  /** The slot probed after `steps` collisions. */
  function Probe(home: nat, steps: nat): nat {
    if home + steps < SIZE then home + steps else home + steps - SIZE
  }

  /**
   Fingerprints are stored plus one, modulo 2^32, and zero means a free slot: the last fingerprint of all
   is taken for absent however often it comes.
   */
  predicate Storable(fp: u32) {
    fp + 1 < TWO_32
  }

  function Capped(visits: nat): nat {
    Min(visits, COUNT_MAX)
  }

  // ---- The table as a value ----

  /** The two arrays, with the map they stand for and the number of collisions each key met. */
  datatype Table = Table(keys: seq<u32>, counts: seq<u16>, visits: map<u32, nat>, steps: map<u32, nat>)

  ghost predicate Crowded(keys: seq<u32>, home: nat, steps: nat)
    requires |keys| == SIZE && home < SIZE && steps <= SIZE
  {
    forall k: nat :: k < steps ==> keys[Probe(home, k)] != 0
  }

  ghost predicate Lives(t: Table, fp: u32)
    requires |t.keys| == |t.counts| == SIZE && fp in t.steps && fp in t.visits
  {
    && Storable(fp) && t.steps[fp] < SIZE && 1 <= t.visits[fp]
    && t.keys[Probe(Home(fp), t.steps[fp])] == fp + 1
    && t.counts[Probe(Home(fp), t.steps[fp])] == Capped(t.visits[fp])
    && Crowded(t.keys, Home(fp), t.steps[fp])
  }

  ghost predicate Owned(t: Table, i: nat)
    requires i < |t.keys|
  {
    1 <= t.keys[i] && t.keys[i] - 1 in t.steps && Probe(Home(t.keys[i] - 1), t.steps[t.keys[i] - 1]) == i
  }

  ghost predicate TableInv(t: Table) {
    && |t.keys| == |t.counts| == SIZE
    && t.visits.Keys == t.steps.Keys
    && (forall fp {:trigger Lives(t, fp)} :: fp in t.steps ==> Lives(t, fp))
    && (forall i {:trigger Owned(t, i)} :: 0 <= i < SIZE && t.keys[i] != 0 ==> Owned(t, i))
  }

  /** The fingerprints in the first `n` slots with a count of at most `limit`. */
  ghost function Found(t: Table, n: nat, limit: nat): set<u32>
    requires TableInv(t) && n <= SIZE
  {
    if n == 0 then {}
    else if t.keys[n - 1] != 0 && t.counts[n - 1] <= limit then
      assert Owned(t, n - 1);
      Found(t, n - 1, limit) + {t.keys[n - 1] - 1}
    else Found(t, n - 1, limit)
  }

  lemma {:induction false} FoundMembers(t: Table, n: nat, limit: nat, fp: u32)
    requires TableInv(t) && n <= SIZE
    ensures fp in Found(t, n, limit) <==>
            fp in t.steps && Probe(Home(fp), t.steps[fp]) < n && Capped(t.visits[fp]) <= limit
  {
    if n > 0 {
      FoundMembers(t, n - 1, limit, fp);
      if fp in t.steps {
        assert Lives(t, fp);
      }
      if t.keys[n - 1] != 0 {
        assert Owned(t, n - 1);
      }
    }
  }

  lemma FoundGrows(t: Table, n: nat, limit: nat)
    requires TableInv(t) && n < SIZE
    ensures |Found(t, n + 1, limit)|
         == |Found(t, n, limit)| + (if t.keys[n] != 0 && t.counts[n] <= limit then 1 else 0)
  {
    if t.keys[n] != 0 && t.counts[n] <= limit {
      assert Owned(t, n);
      FoundMembers(t, n, limit, t.keys[n] - 1);
    }
  }

  lemma {:induction false} AllTaken(t: Table, n: nat)
    requires TableInv(t) && n <= SIZE && forall i :: 0 <= i < n ==> t.keys[i] != 0
    ensures |Found(t, n, COUNT_MAX)| == n
  {
    if n > 0 {
      AllTaken(t, n - 1);
      FoundGrows(t, n - 1, COUNT_MAX);
    }
  }

  lemma SubsetSize<T>(a: set<T>, b: set<T>)
    requires a <= b
    ensures |a| <= |b|
  {
    assert b == a + (b - a);
  }

  /** While fewer fingerprints than slots were recorded, a slot is free. */
  lemma SomeSlotFree(t: Table)
    requires TableInv(t) && |t.visits| < SIZE
    ensures exists i :: 0 <= i < SIZE && t.keys[i] == 0
  {
    if forall i :: 0 <= i < SIZE ==> t.keys[i] != 0 {
      AllTaken(t, SIZE);
      forall fp | fp in Found(t, SIZE, COUNT_MAX)
        ensures fp in t.visits.Keys
      {
        FoundMembers(t, SIZE, COUNT_MAX, fp);
      }
      SubsetSize(Found(t, SIZE, COUNT_MAX), t.visits.Keys);
    }
  }

  /** Probing for a fingerprint that is recorded, or fits, ends before it has seen every slot. */
  lemma ProbingStops(t: Table, fp: u32)
    requires TableInv(t) && (fp in t.visits || |t.visits| < SIZE)
    ensures exists k: nat :: k < SIZE && t.keys[Probe(Home(fp), k)] in {0, fp + 1}
  {
    if fp in t.visits {
      assert Lives(t, fp);
    } else {
      SomeSlotFree(t);
      var i :| 0 <= i < SIZE && t.keys[i] == 0;
      var k := if Home(fp) <= i then i - Home(fp) else i + SIZE - Home(fp);
      assert Probe(Home(fp), k) == i;
    }
  }

  /** A probe that met neither a free slot nor the key before `steps` decides membership there. */
  lemma ProbeDecides(t: Table, fp: u32, steps: nat)
    requires TableInv(t) && steps < SIZE && Crowded(t.keys, Home(fp), steps)
    requires forall k: nat :: k < steps ==> t.keys[Probe(Home(fp), k)] != fp + 1
    requires t.keys[Probe(Home(fp), steps)] in {0, fp + 1}
    ensures fp in t.visits <==> t.keys[Probe(Home(fp), steps)] == fp + 1
    ensures fp in t.visits ==> t.steps[fp] == steps
  {
    if fp in t.visits {
      assert Lives(t, fp);
    }
    if t.keys[Probe(Home(fp), steps)] != 0 {
      assert Owned(t, Probe(Home(fp), steps));
    }
  }

  lemma RecordedAreStorable(t: Table, fp: u32)
    requires TableInv(t)
    ensures fp in t.visits ==> Storable(fp)
  {
    if fp in t.visits {
      assert Lives(t, fp);
    }
  }

  function Inserted(t: Table, fp: u32, steps: nat): Table
    requires |t.keys| == |t.counts| == SIZE && steps < SIZE && Storable(fp)
  {
    var h := Probe(Home(fp), steps);
    Table(t.keys[h := fp + 1], t.counts[h := 1], t.visits[fp := 1], t.steps[fp := steps])
  }

  lemma InsertKeepsInv(t: Table, fp: u32, steps: nat)
    requires TableInv(t) && Storable(fp) && fp !in t.visits && steps < SIZE
    requires Crowded(t.keys, Home(fp), steps) && t.keys[Probe(Home(fp), steps)] == 0
    ensures TableInv(Inserted(t, fp, steps))
  {
    var h := Probe(Home(fp), steps);
    var r := Inserted(t, fp, steps);
    forall q | q in r.steps
      ensures Lives(r, q)
    {
      if q != fp {
        assert Lives(t, q);
      }
    }
    forall i | 0 <= i < SIZE && r.keys[i] != 0
      ensures Owned(r, i)
    {
      if i != h {
        assert Owned(t, i);
      }
    }
  }

  function Bumped(t: Table, fp: u32): Table
    requires |t.counts| == SIZE && fp in t.visits && fp in t.steps && t.steps[fp] < SIZE
  {
    t.(counts := t.counts[Probe(Home(fp), t.steps[fp]) := Capped(t.visits[fp] + 1)],
       visits := t.visits[fp := t.visits[fp] + 1])
  }

  lemma BumpKeepsInv(t: Table, fp: u32)
    requires TableInv(t) && fp in t.visits
    ensures t.steps[fp] < SIZE && TableInv(Bumped(t, fp))
  {
    assert Lives(t, fp);
    var h := Probe(Home(fp), t.steps[fp]);
    var r := Bumped(t, fp);
    forall q | q in r.steps
      ensures Lives(r, q)
    {
      assert Lives(t, q);
    }
    forall i | 0 <= i < SIZE && r.keys[i] != 0
      ensures Owned(r, i)
    {
      assert Owned(t, i);
    }
  }

  lemma FreeCountKeepsInv(t: Table, h: nat)
    requires TableInv(t) && h < SIZE && t.keys[h] == 0
    ensures TableInv(t.(counts := t.counts[h := 1]))
  {
    var r := t.(counts := t.counts[h := 1]);
    forall q | q in r.steps
      ensures Lives(r, q)
    {
      assert Lives(t, q);
    }
    forall i | 0 <= i < SIZE && r.keys[i] != 0
      ensures Owned(r, i)
    {
      assert Owned(t, i);
    }
  }

  // ---- The table in memory ----

  class CoverageTable {
    const keys: array<u32>
    const counts: array<u16>
    var distinct: nat

    /** How often each fingerprint was recorded, and after how many collisions it was placed. */
    ghost var visits: map<u32, nat>
    ghost var steps: map<u32, nat>
    /** How often the one fingerprint that cannot be stored was recorded. */
    ghost var unstored: nat

    ghost function View(): Table
      reads this, keys, counts
    {
      Table(keys[..], counts[..], visits, steps)
    }

    ghost predicate Valid()
      reads this, keys, counts
    {
      keys.Length == SIZE && counts.Length == SIZE && distinct == |visits| + unstored && TableInv(View())
    }

    constructor ()
      ensures Valid() && fresh(keys) && fresh(counts) && visits == map[] && unstored == 0
    {
      keys := new u32[SIZE](_ => 0);
      counts := new u16[SIZE](_ => 0);
      distinct := 0;
      visits := map[];
      steps := map[];
      unstored := 0;
    }

    method Reset()
      requires Valid()
      modifies this, keys, counts
      ensures Valid() && visits == map[] && unstored == 0
    {
      for i := 0 to SIZE
        invariant forall k :: 0 <= k < i ==> keys[k] == 0
      {
        keys[i] := 0;
        counts[i] := 0;
      }
      distinct := 0;
      visits := map[];
      steps := map[];
      unstored := 0;
    }

    /** The probe loop: the slot of the fingerprint, or the free slot where it belongs. */
    method Find(fp: u32) returns (h: nat, ghost n: nat)
      requires Valid() && (fp in visits || |visits| < SIZE)
      ensures n < SIZE && h == Probe(Home(fp), n) && h < SIZE
      ensures keys[h] == (if fp in visits then fp + 1 else 0)
      ensures if fp in visits then steps[fp] == n else Crowded(keys[..], Home(fp), n)
    {
      ghost var t := View();
      ProbingStops(t, fp);
      ghost var last: nat :| last < SIZE && t.keys[Probe(Home(fp), last)] in {0, fp + 1};
      var key := Wrap32(fp + 1);
      h := Home(fp);
      n := 0;
      while keys[h] != 0 && keys[h] != key
        invariant n <= last && h == Probe(Home(fp), n)
        invariant forall k: nat :: k < n ==> t.keys[Probe(Home(fp), k)] !in {0, key}
        decreases last - n
      {
        h := Next(h);
        n := n + 1;
      }
      ProbeDecides(t, fp, n);
    }

    /**
     Records a visit; true when the fingerprint is new. The one that cannot be stored is new every time,
     and counted as distinct every time.
     */
    method Record(fp: u32) returns (isNew: bool)
      requires Valid() && (fp in visits || |visits| < SIZE)
      modifies this, keys, counts
      ensures Valid()
      ensures isNew <==> fp !in old(visits)
      ensures Storable(fp) ==>
              && visits == old(visits)[fp := if fp in old(visits) then old(visits)[fp] + 1 else 1]
              && unstored == old(unstored)
      ensures !Storable(fp) ==> fp !in visits && visits == old(visits) && unstored == old(unstored) + 1
    {
      var h;
      ghost var n;
      h, n := Find(fp);
      RecordedAreStorable(View(), fp);
      if keys[h] == 0 {
        Insert(fp, h, n);
        return true;
      }
      Bump(fp, h);
      return false;
    }

    method Place(fp: u32, h: nat)
      requires h < keys.Length == counts.Length
      modifies this`distinct, keys, counts
      ensures keys[..] == old(keys[..])[h := Wrap32(fp + 1)] && counts[..] == old(counts[..])[h := 1]
      ensures distinct == old(distinct) + 1
    {
      keys[h] := Wrap32(fp + 1);
      counts[h] := 1;
      distinct := distinct + 1;
    }

    /** The key that does not exist leaves the slot free, with a count nobody reads. */
    method Insert(fp: u32, h: nat, ghost n: nat)
      requires Valid() && fp !in visits
      requires n < SIZE && h == Probe(Home(fp), n) && h < SIZE && keys[h] == 0 && Crowded(keys[..], Home(fp), n)
      modifies this, keys, counts
      ensures Valid()
      ensures Storable(fp) ==> visits == old(visits)[fp := 1] && unstored == old(unstored)
      ensures !Storable(fp) ==> visits == old(visits) && unstored == old(unstored) + 1
    {
      ghost var t := View();
      Place(fp, h);
      if Storable(fp) {
        InsertKeepsInv(t, fp, n);
        visits := visits[fp := 1];
        steps := steps[fp := n];
        assert View() == Inserted(t, fp, n);
      } else {
        FreeCountKeepsInv(t, h);
        unstored := unstored + 1;
        assert View() == t.(counts := t.counts[h := 1]);
      }
    }

    /** One more visit; the counter saturates. */
    method Bump(fp: u32, h: nat)
      requires Valid() && fp in visits && fp in steps && h == Probe(Home(fp), steps[fp]) && h < SIZE
      modifies this, counts
      ensures Valid() && visits == old(visits)[fp := old(visits)[fp] + 1] && unstored == old(unstored)
    {
      ghost var t := View();
      BumpKeepsInv(t, fp);
      assert Lives(t, fp);
      if counts[h] < COUNT_MAX {
        counts[h] := counts[h] + 1;
      }
      visits := visits[fp := visits[fp] + 1];
      assert View() == Bumped(t, fp);
    }

    /** The number of fingerprints visited at most three times. */
    method CountRare() returns (rare: nat)
      requires Valid()
      ensures rare == |set fp | fp in visits && visits[fp] <= RARE|
    {
      ghost var t := View();
      rare := 0;
      for i := 0 to SIZE
        invariant rare == |Found(t, i, RARE)|
      {
        FoundGrows(t, i, RARE);
        if keys[i] != 0 && counts[i] <= RARE {
          rare := rare + 1;
        }
      }
      RareAreFound(t);
    }
  }

  lemma RareAreFound(t: Table)
    requires TableInv(t)
    ensures Found(t, SIZE, RARE) == set fp | fp in t.visits && t.visits[fp] <= RARE
  {
    forall fp
      ensures fp in Found(t, SIZE, RARE) <==> fp in t.visits && t.visits[fp] <= RARE
    {
      FoundMembers(t, SIZE, RARE, fp);
      if fp in t.visits {
        assert Lives(t, fp);
      }
    }
  }
}
