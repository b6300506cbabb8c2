/** The file system a caller sees in one directory: names, byte strings, open files and free space, and one step per
    call. */
module FsModel {
  import opened Bytes
  import opened Directory
  import FM = FileModel

  datatype HandleView = Closed | Opened(name: Name, pos: nat)

  datatype View = View(files: map<Name, FM.File>, subdirs: map<Name, FM.Folder>, room: nat, space: FM.Space,
                       handles: seq<HandleView>)

  datatype Op =
    | Create(name: Name)
    | Open(name: Name)
    | Read(h: int, n: nat)
    | Write(h: int, buf: seq<byte>)
    | Close(h: int)
    | Unlink(name: Name)
    | Rename(from: Name, to: Name)
    | Mkdir(name: Name)
    | Rmdir(name: Name)

  datatype Reply = Code(code: int) | Data(bytes: seq<byte>)

  predicate Taken(a: View, n: Name) {
    n in a.files || n in a.subdirs
  }

  /** A handle in use; its file exists and its position is not past the end, as Consistent says of every reachable
      view. */
  predicate IsOpen(a: View, h: int) {
    0 <= h < |a.handles| && a.handles[h].Opened?
    && a.handles[h].name in a.files && a.handles[h].pos <= |a.files[a.handles[h].name].bytes|
  }

  /** The lowest closed handle from `i` on, or -1. */
  function LowestClosed(hs: seq<HandleView>, i: nat): (r: int)
    requires i <= |hs|
    ensures r == -1 || i <= r < |hs|
    decreases |hs| - i
  {
    if i == |hs| then -1 else if hs[i].Closed? then i else LowestClosed(hs, i + 1)
  }

  function RenameHandle(hv: HandleView, from: Name, to: Name): HandleView {
    if hv.Opened? && hv.name == from then hv.(name := to) else hv
  }

  /** The bytes a read of `n` bytes at `pos` delivers. */
  function ReadAt(b: seq<byte>, pos: nat, n: nat): seq<byte> {
    if pos <= |b| then b[pos..FM.Min(pos + n, |b|)] else []
  }

  /** Open files exist, and no position is past the end of its file. */
  ghost predicate Consistent(a: View) {
    forall h | 0 <= h < |a.handles| && a.handles[h].Opened? ::
      a.handles[h].name in a.files && a.handles[h].pos <= |a.files[a.handles[h].name].bytes|
  }

  /** One call. `cs` is the size of a cluster. */
  ghost function Step(cs: nat, a: View, op: Op): (View, Reply)
    requires cs > 0
  {
    match op
    case Create(n) =>
      if Taken(a, n) || Reserved(n) || a.room == 0 then (a, Code(-1))
      else (a.(files := a.files[n := FM.File([], 0, false)], room := a.room - 1), Code(0))
    case Open(n) =>
      var h := LowestClosed(a.handles, 0);
      if n !in a.files || h == -1 then (a, Code(-1))
      else (a.(handles := a.handles[h := Opened(n, 0)]), Code(h))
    case Read(h, n) =>
      if !IsOpen(a, h) then (a, Code(-1))
      else
        var r := ReadAt(a.files[a.handles[h].name].bytes, a.handles[h].pos, n);
        (a.(handles := a.handles[h := a.handles[h].(pos := a.handles[h].pos + |r|)]), Data(r))
    case Write(h, buf) =>
      if !IsOpen(a, h) then (a, Code(-1))
      else
        var name, pos := a.handles[h].name, a.handles[h].pos;
        var (f, sp, ret) := FM.Write(cs, a.files[name], a.space, pos, buf);
        (a.(files := a.files[name := f], space := sp, handles := a.handles[h := Opened(name, pos + FM.Count(ret))]),
            Code(ret))
    case Close(h) =>
      if !IsOpen(a, h) then (a, Code(-1)) else (a.(handles := a.handles[h := Closed]), Code(0))
    case Unlink(n) =>
      if n !in a.files then (a, Code(-1))
      else
        var f := a.files[n];
        (a.(files := a.files - {n}, room := a.room + 1,
            space := FM.Space(a.space.free + f.clusters, a.space.spare + if f.stuck then 1 else 0)), Code(0))
    case Rename(from, to) =>
      if IsDots(from) || !Taken(a, from) || Taken(a, to) then (a, Code(-1))
      else
        var hs := seq(|a.handles|, i requires 0 <= i < |a.handles| => RenameHandle(a.handles[i], from, to));
        if from in a.files then (a.(files := (a.files - {from})[to := a.files[from]], handles := hs), Code(0))
        else (a.(subdirs := (a.subdirs - {from})[to := a.subdirs[from]]), Code(0))
    case Mkdir(n) =>
      if Taken(a, n) || Reserved(n) || (a.space.free == 0 && a.space.spare == 0) then (a, Code(-1))
      else if a.space.free == 0 then (a.(space := a.space.(spare := a.space.spare - 1)), Code(-1))
      else if a.room == 0 then (a.(space := a.space.(free := a.space.free - 1)), Code(-1))
      else (a.(subdirs := a.subdirs[n := FM.Folder(1, false, true)], room := a.room - 1,
               space := a.space.(free := a.space.free - 1)), Code(0))
    case Rmdir(n) =>
      if n !in a.subdirs || a.subdirs[n].Marker? || !a.subdirs[n].empty then (a, Code(-1))
      else
        var d := a.subdirs[n];
        (a.(subdirs := a.subdirs - {n}, room := a.room + 1,
            space := FM.Space(a.space.free + d.clusters, a.space.spare + if d.stuck then 1 else 0)), Code(0))
  }

  /** What callers must not do: write or remove a file also open elsewhere, pass a position of 2^32, use a name whose
      first byte marks an unused slot, rename to "." or "..", or (`tight` when the table has no entry above the end
      mark) use up the last spare entry. */
  ghost predicate Legal(tight: bool, a: View, op: Op) {
    match op
    case Create(n) => Ordinary(n)
    case Write(h, buf) =>
      IsOpen(a, h) ==>
        && a.handles[h].pos + |buf| < 0x1_0000_0000
        && (tight || a.space.spare > 0)
        && forall k | 0 <= k < |a.handles| && k != h && a.handles[k].Opened? :: a.handles[k].name != a.handles[h].name
    case Unlink(n) => forall k | 0 <= k < |a.handles| && a.handles[k].Opened? :: a.handles[k].name != n
    case Mkdir(n) => Ordinary(n) && (tight || a.space.spare > 0)
    case Rename(from, to) => Ordinary(to) && !IsDots(to)
    case _ => true
  }
}
