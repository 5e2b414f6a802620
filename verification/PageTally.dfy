/** The per-file page tally at the end of mmap_readamp.c: one bucket per (dev, inode),
    filled by linear probing and never emptied. */
module PageTally {
  import opened Probing
  import opened Wrappers

  const NT: nat := 0x4_0000

  datatype File = File(dev: nat, ino: nat)

  type Tally = seq<Slot<File, nat>>

  ghost function Files(pages: seq<File>): set<File> {
    set f | f in pages
  }

  ghost function Tracked(t: Tally): set<File> {
    set b | 0 <= b < |t| && t[b].Taken? :: t[b].key
  }

  /** The sum of all bucket counts. */
  function Total(t: Tally): nat {
    if t == [] then 0
    else Total(t[..|t| - 1]) + if t[|t| - 1].Taken? then t[|t| - 1].val else 0
  }

  function Count(s: Slot<File, nat>): nat {
    if s.Taken? then s.val else 0
  }

  lemma {:induction false} TotalUpdate(t: Tally, b: nat, s: Slot<File, nat>)
    requires b < |t|
    ensures Total(t[b := s]) == Total(t) - Count(t[b]) + Count(s)
  {
    var n := |t| - 1;
    if b == n {
      assert t[b := s][..n] == t[..n];
    } else {
      assert t[b := s][..n] == t[..n][b := s];
      TotalUpdate(t[..n], b, s);
    }
  }

  lemma {:induction false} TotalOfVacant(t: Tally)
    requires forall b | 0 <= b < |t| :: t[b].Vacant?
    ensures Total(t) == 0
  {
    if t != [] {
      TotalOfVacant(t[..|t| - 1]);
    }
  }

  /** One bucket per file. */
  ghost predicate Unique(t: Tally) {
    forall a, b | 0 <= a < b < |t| && t[a].Taken? && t[b].Taken? :: t[a].key != t[b].key
  }

  /** Probing for a file that has a bucket reaches that bucket. */
  ghost predicate Findable(hash: File -> nat, t: Tally) {
    forall b {:trigger FoundAt(hash, t, b)} | 0 <= b < |t| && t[b].Taken? :: FoundAt(hash, t, b)
  }

  ghost predicate FoundAt(hash: File -> nat, t: Tally, b: int)
    requires 0 <= b < |t| && t[b].Taken?
  {
    Locate(t, hash(t[b].key), t[b].key) == Some(b)
  }

  lemma {:induction false} TrackedSize(t: Tally)
    requires Unique(t)
    ensures |Tracked(t)| <= |t|
    ensures (forall b | 0 <= b < |t| :: t[b].Taken?) ==> |Tracked(t)| == |t|
  {
    if t != [] {
      var n := |t| - 1;
      TrackedSize(t[..n]);
      if t[n].Taken? {
        assert Tracked(t) == Tracked(t[..n]) + {t[n].key};
        assert t[n].key !in Tracked(t[..n]);
      } else {
        assert Tracked(t) == Tracked(t[..n]);
      }
    }
  }

  /** Filling or bumping the bucket found for f leaves every other file findable. */
  lemma PutKeepsFindable(hash: File -> nat, t: Tally, f: File, b: nat, v: nat)
    requires Unique(t) && Findable(hash, t) && Locate(t, hash(f), f) == Some(b)
    ensures Unique(t[b := Taken(f, v)]) && Findable(hash, t[b := Taken(f, v)])
    ensures Tracked(t[b := Taken(f, v)]) == Tracked(t) + {f}
  {
    var t' := t[b := Taken(f, v)];
    forall a | 0 <= a < |t| && a != b && t[a].Taken? ensures t[a].key != f {
      assert FoundAt(hash, t, a);
    }
    forall a | 0 <= a < |t'| && t'[a].Taken? ensures FoundAt(hash, t', a) {
      var k := t'[a].key;
      assert a != b ==> FoundAt(hash, t, a);
      var d := LocateFromPath(t, hash(k), k, 0);
      LocateFromIs(t', hash(k), k, 0, d);
    }
    forall k | k in Tracked(t) + {f} ensures k in Tracked(t') {
      if k == f {
        assert t'[b].key == f;
      } else {
        var a :| 0 <= a < |t| && t[a].Taken? && t[a].key == k;
        assert a != b && t'[a].key == k;
      }
    }
  }

  /** What the table means after the first pages of the walk: each bucket holds the number of
      pages seen for its file, and only a full table leaves a file out. */
  ghost predicate Represents(hash: File -> nat, t: Tally, pages: seq<File>) {
    && Unique(t) && Findable(hash, t)
    && Tracked(t) <= Files(pages)
    && (forall b | 0 <= b < |t| && t[b].Taken? :: t[b].val == multiset(pages)[t[b].key])
    && (Tracked(t) != Files(pages) ==> |Tracked(t)| == |t|)
    && Total(t) <= |pages|
    && (Total(t) == |pages| <==> Tracked(t) == Files(pages))
  }

  lemma FilesSnoc(pages: seq<File>, f: File)
    ensures Files(pages + [f]) == Files(pages) + {f}
  {
  }

  /** One page key: bump its bucket, open a new one, or (table full) drop it. */
  function Record(hash: File -> nat, t: Tally, f: File): Tally {
    match Locate(t, hash(f), f)
    case Some(b) => t[b := Taken(f, Count(t[b]) + 1)]
    case None => t
  }

  /** A dropped page: the table is full of other files. */
  lemma DropStep(hash: File -> nat, t: Tally, pages: seq<File>, f: File)
    requires Represents(hash, t, pages) && Locate(t, hash(f), f) == None
    ensures Represents(hash, Record(hash, t, f), pages + [f])
  {
    forall b | 0 <= b < |t| ensures t[b].Taken? && t[b].key != f {
      FullWithout(t, hash(f), f, b);
    }
    TrackedSize(t);
    FilesSnoc(pages, f);
    assert f !in Tracked(t) && f in Files(pages + [f]);
  }

  /** A further page of a file that has a bucket. */
  lemma BumpStep(hash: File -> nat, t: Tally, pages: seq<File>, f: File, b: nat)
    requires Represents(hash, t, pages) && Locate(t, hash(f), f) == Some(b) && t[b].Taken?
    ensures Represents(hash, Record(hash, t, f), pages + [f])
  {
    PutKeepsFindable(hash, t, f, b, t[b].val + 1);
    TotalUpdate(t, b, Taken(f, t[b].val + 1));
    FilesSnoc(pages, f);
    assert t[b].key in Tracked(t);
    assert Tracked(t) + {f} == Tracked(t);
    assert Files(pages) + {f} == Files(pages);
  }

  /** While a vacant bucket remains, no file has been left out. */
  lemma VacancyMeansNoLoss(hash: File -> nat, t: Tally, pages: seq<File>, b: nat)
    requires Represents(hash, t, pages) && b < |t| && t[b].Vacant?
    ensures Tracked(t) == Files(pages)
  {
    var rest := t[..b] + t[b + 1..];
    assert Tracked(t) == Tracked(rest) by {
      forall a | 0 <= a < |t| && t[a].Taken? ensures t[a].key in Tracked(rest) {
        assert t[a] == rest[if a < b then a else a - 1];
      }
    }
    TrackedSize(rest);
  }

  /** The first page of a file: its bucket is opened. */
  lemma OpenStep(hash: File -> nat, t: Tally, pages: seq<File>, f: File, b: nat)
    requires Represents(hash, t, pages) && Locate(t, hash(f), f) == Some(b) && t[b].Vacant?
    ensures Represents(hash, Record(hash, t, f), pages + [f])
  {
    PutKeepsFindable(hash, t, f, b, 1);
    TotalUpdate(t, b, Taken(f, 1));
    FilesSnoc(pages, f);
    VacancyMeansNoLoss(hash, t, pages, b);
    forall a | 0 <= a < |t| && t[a].Taken? ensures t[a].key != f {
      assert FoundAt(hash, t, a);
    }
    assert f !in pages;
  }

  lemma RecordStep(hash: File -> nat, t: Tally, pages: seq<File>, f: File)
    requires Represents(hash, t, pages)
    ensures Represents(hash, Record(hash, t, f), pages + [f])
  {
    match Locate(t, hash(f), f)
    case None => DropStep(hash, t, pages, f);
    case Some(b) =>
      if t[b].Taken? {
        BumpStep(hash, t, pages, f, b);
      } else {
        OpenStep(hash, t, pages, f, b);
      }
  }

  lemma StartStep(hash: File -> nat, t: Tally)
    requires forall b | 0 <= b < |t| :: t[b].Vacant?
    ensures Represents(hash, t, [])
  {
    TotalOfVacant(t);
    assert Tracked(t) == Files([]);
  }

  /** One turn of the walk's loop body. */
  method RecordPage(hash: File -> nat, tal: array<Slot<File, nat>>, f: File)
    modifies tal
    ensures tal[..] == Record(hash, old(tal[..]), f)
  {
    var r := Probe(tal, hash(f), f);
    if r.Some? {
      tal[r.value] := Taken(f, Count(tal[r.value]) + 1);
    }
  }

  /** The walk over all page keys. */
  method TallyPages(hash: File -> nat, pages: seq<File>) returns (tal: array<Slot<File, nat>>, npg: nat)
    ensures tal.Length == NT && npg == |pages|
    ensures Represents(hash, tal[..], pages)
    ensures Total(tal[..]) == npg <==> |Files(pages)| <= NT
  {
    tal, npg := WalkPages(hash, pages);
    ExactIffFits(hash, tal[..], pages);
  }

  /** The walk over all page keys. */
  method WalkPages(hash: File -> nat, pages: seq<File>) returns (tal: array<Slot<File, nat>>, npg: nat)
    ensures tal.Length == NT && npg == |pages| && Represents(hash, tal[..], pages)
  {
    tal := new Slot<File, nat>[NT](_ => Vacant);
    npg := 0;
    StartStep(hash, tal[..]);
    while npg < |pages|
      invariant npg <= |pages| && tal.Length == NT && fresh(tal)
      invariant Represents(hash, tal[..], pages[..npg])
    {
      RecordStep(hash, tal[..], pages[..npg], pages[npg]);
      RecordPage(hash, tal, pages[npg]);
      assert pages[..npg + 1] == pages[..npg] + [pages[npg]];
      npg := npg + 1;
    }
    assert pages[..npg] == pages;
  }

  /** The table refines the map from files to page counts, with nothing lost, exactly when
      there are at most NT files; the counts then sum to the number of pages. */
  lemma ExactIffFits(hash: File -> nat, t: Tally, pages: seq<File>)
    requires Represents(hash, t, pages)
    ensures Total(t) == |pages| <==> |Files(pages)| <= |t|
    ensures |Files(pages)| <= |t| ==>
              forall f | f in pages :: exists b | 0 <= b < |t| :: t[b] == Taken(f, multiset(pages)[f])
    ensures forall a, b | 0 <= a < |t| && 0 <= b < |t| && t[a].Taken? && t[b].Taken? && t[a].key == t[b].key :: a == b
  {
    TrackedSize(t);
    if Tracked(t) != Files(pages) {
      assert Files(pages) == Tracked(t) + (Files(pages) - Tracked(t));
    } else {
      forall f | f in pages ensures exists b | 0 <= b < |t| :: t[b] == Taken(f, multiset(pages)[f]) {
        assert f in Tracked(t);
        var b :| 0 <= b < |t| && t[b].Taken? && t[b].key == f;
        assert t[b] == Taken(f, multiset(pages)[f]);
      }
    }
  }
}
