/** Partition tables in use: any run of edits, then a scan, then any run of writes through the views it found. */
module MbrUse {
  import opened Bytes
  import opened Disks
  import opened MbrTables
  import opened Mbr
  import opened MbrRuns

  /** A write through view number `view`. */
  datatype Request = Request(view: nat, lba: u32, count: u32, buf: seq<byte>)

  predicate Whole(r: Request) { |r.buf| == r.count * SECTOR }
  predicate AllWhole(rs: seq<Request>) { forall i | 0 <= i < |rs| :: Whole(rs[i]) }

  /** The end of the request wraps and the view accepts it nevertheless. */
  predicate SlipsThrough(views: seq<View>, r: Request) {
    r.view < |views| && r.lba + r.count >= WORD && Passes(views[r.view], r.lba, r.count)
  }

  predicate NoneSlips(views: seq<View>, rs: seq<Request>) {
    forall i | 0 <= i < |rs| :: !SlipsThrough(views, rs[i])
  }

  /** What disk number `j` holds after a request: the data, if the request is for this disk and inside it. */
  ghost function Stored(g: seq<Sector>, r: Request, j: nat): (n: seq<Sector>)
    requires Whole(r)
    ensures |n| == |g|
  {
    if r.view == j && r.lba + r.count <= |g| then Splice(g, r.lba, Cut(r.buf)) else g
  }

  /** A disk of its own, holding `h`, after those of the requests that are for view `j` and inside it. */
  ghost function Applied(h: seq<Sector>, rs: seq<Request>, j: nat): (g: seq<Sector>)
    requires AllWhole(rs)
    ensures |g| == |h|
  {
    if rs == [] then h
    else
      Stored(Applied(h, rs[..|rs| - 1], j), rs[|rs| - 1], j)
  }

  /** Every view holds what it would hold as a disk of its own. */
  ghost predicate AsOwnDisks(views: seq<View>, start: seq<seq<Sector>>, now: seq<seq<Sector>>, rs: seq<Request>)
    requires Isolated(views, start) && Isolated(views, now) && AllWhole(rs)
  {
    forall j | 0 <= j < |views| :: Held(views[j], now) == Applied(Held(views[j], start), rs, j)
  }

  lemma SameSizes(views: seq<View>, a: seq<seq<Sector>>, b: seq<seq<Sector>>)
    requires Isolated(views, a) && |b| == |a| && forall d | 0 <= d < |a| :: |b[d]| == |a[d]|
    ensures Isolated(views, b)
  {
  }

  /** One more request: the view it is for changes, if the request lies inside it, and no other. */
  lemma OneMoreRequest(views: seq<View>, start: seq<seq<Sector>>, was: seq<seq<Sector>>, now: seq<seq<Sector>>,
                       rs: seq<Request>, i: nat)
    requires Isolated(views, start) && Isolated(views, was) && Isolated(views, now) && AllWhole(rs) && i < |rs|
    requires AsOwnDisks(views, start, was, rs[..i])
    requires forall j | 0 <= j < |views| :: Held(views[j], now) == Stored(Held(views[j], was), rs[i], j)
    ensures AsOwnDisks(views, start, now, rs[..i + 1])
  {
    hide Stored, Held;
    var now_, was_ := rs[..i + 1], rs[..i];
    assert now_[..i] == was_ && now_[i] == rs[i];
    forall j | 0 <= j < |views|
      ensures Held(views[j], now) == Applied(Held(views[j], start), now_, j)
    {
      assert Held(views[j], now) == Stored(Held(views[j], was), rs[i], j);
    }
  }

  /** After any run of edits on disk `d` and a scan, any run of writes through the views, none of which slips through
      the check of its bounds, leaves every view exactly as if it were a disk of its own; `start` is what the disks held
      at the scan. Only the table of disk `d` had changed by then. */
  method EditScanWrite(raws: seq<Disk>, d: nat, edits: seq<Edit>, blob: Sector, rs: seq<Request>)
    returns (views: seq<View>, ghost start: seq<seq<Sector>>)
    requires Reliable(raws) && AllGood(Contents(raws)) && d < |raws| && |raws[d].sectors| > 0 && AllWhole(rs)
    requires forall i | 0 <= i < |edits| && edits[i].CreateAtGap? :: edits[i].kind != 0 && edits[i].count > 0
    modifies raws
    ensures |start| == |raws| && AllGood(start)
    ensures (forall k | 0 <= k < |raws| && k != d :: start[k] == old(raws[k].sectors))
    ensures |start[d]| == |old(raws[d].sectors)| > 0 && start[d] == old(raws[d].sectors)[0 := start[d][0]]
    ensures SameCode(start[d][0], old(raws[d].sectors)[0])
    ensures views == UpTo(AllViews(start, 0), VIEW_SLOTS) && Isolated(views, start) && Isolated(views, Contents(raws))
    ensures NoneSlips(views, rs) ==> AsOwnDisks(views, start, Contents(raws), rs)
  {
    hide Good, UpTo, AllViews, Traced, SameCode;
    ghost var tables := RunEdits(raws[d], edits, blob);
    start := Contents(raws);
    assert forall k | 0 <= k < |raws| && k != d :: raws[k] != raws[d];
    views := ScanAll(raws);
    ScanIsolates(start);
    WriteAll(raws, views, rs);
  }

  /** The requests in order; one for a view that does not exist is refused. */
  method WriteAll(raws: seq<Disk>, views: seq<View>, rs: seq<Request>)
    requires Reliable(raws) && Isolated(views, Contents(raws)) && AllWhole(rs)
    requires forall k | 0 <= k < |raws| :: |raws[k].sectors| < WORD
    modifies raws
    ensures Isolated(views, Contents(raws))
    ensures NoneSlips(views, rs) ==> AsOwnDisks(views, old(Contents(raws)), Contents(raws), rs)
  {
    hide Splice, Cut, Isolated, Held;
    ghost var start := Contents(raws);
    var i := 0;
    while i < |rs|
      invariant 0 <= i <= |rs| && (forall k | 0 <= k < |raws| :: |raws[k].sectors| == |start[k]|)
      invariant Isolated(views, Contents(raws))
      invariant NoneSlips(views, rs) ==> AsOwnDisks(views, start, Contents(raws), rs[..i])
    {
      ghost var was := Contents(raws);
      var r := rs[i];
      if r.view < |views| {
        var ok := PartWrite(raws, views, r.view, r.lba, r.count, r.buf);
        SameSizes(views, was, Contents(raws));
      }
      if NoneSlips(views, rs) {
        assert !SlipsThrough(views, r);
        OneMoreRequest(views, start, was, Contents(raws), rs, i);
      }
      i := i + 1;
    }
    assert rs[..i] == rs;
  }
}
