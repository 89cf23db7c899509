/** From mkfs through copies to the kernel: what is written is what is read. */
module RoundTrip {
  import opened Units
  import opened Bytes
  import opened DirectoryBlock
  import opened DiskFormat
  import opened GroupLayout
  import opened ImageWriter
  import opened VolumeFiles
  import opened FileCopier
  import opened Paths
  import opened FormatImage
  import opened Volume
  import opened SpaceLeft
  import KernelReader
  import FileWalk
  import RootDirectory

  /** A source file and the name it is copied to. */
  datatype Item = Item(name: seq<Byte>, data: seq<Byte>)

  /** What the files hold, by their names. */
  type Held = map<seq<Byte>, seq<Byte>>

  ghost function Contents(files: Files): Held {
    map n | n in files :: files[n].data
  }

  predicate Copyable(items: seq<Item>) {
    forall i :: 0 <= i < |items| ==>
      LegalName(items[i].name) && SLASH !in items[i].name && |items[i].data| < WORD
  }

  // ----- what a sequence of copies comes to

  /** The name of no file, and not of the directory itself. */
  predicate IsNewName(held: Held, name: seq<Byte>) {
    name !in held && name != DOT && name != DOT_DOT
  }

  /** What copying one item comes to, where these files are; `rest` as in `CopyOutcome`. */
  function ItemResult(s: Space, rest: nat, held: Held, item: Item): Result {
    if !IsNewName(held, item.name) then NameTaken
    else CopyOutcome(s, rest, |item.name|, |item.data|)
  }

  /** The program goes on with the next item. */
  predicate GoesOn(r: Result) {
    r == Written || r == Refused || r == NameTaken
  }

  function SpaceAfter(s: Space, rest: nat, held: Held, item: Item): Space
    requires GoesOn(ItemResult(s, rest, held, item))
  {
    if ItemResult(s, rest, held, item) == NameTaken then s else AfterCopy(s, rest, |item.name|, |item.data|)
  }

  /** A file that is refused stays behind empty. */
  function HeldWith(s: Space, rest: nat, held: Held, item: Item): Held {
    var r := ItemResult(s, rest, held, item);
    if r == Written then held[item.name := item.data] else if r == Refused then held[item.name := []] else held
  }

  /** The results of all copies, up to the one that ends the program. */
  function Results(s: Space, rest: nat, held: Held, items: seq<Item>): seq<Result>
    decreases |items|
  {
    if items == [] then []
    else
      var r := ItemResult(s, rest, held, items[0]);
      if !GoesOn(r) then [r]
      else [r] + Results(SpaceAfter(s, rest, held, items[0]), rest, HeldWith(s, rest, held, items[0]), items[1..])
  }

  /** The files there are then. */
  function HeldAfter(s: Space, rest: nat, held: Held, items: seq<Item>): Held
    decreases |items|
  {
    if items == [] || !GoesOn(ItemResult(s, rest, held, items[0])) then held
    else HeldAfter(SpaceAfter(s, rest, held, items[0]), rest, HeldWith(s, rest, held, items[0]), items[1..])
  }

  predicate Completes(results: seq<Result>) {
    forall i :: 0 <= i < |results| ==> GoesOn(results[i])
  }

  /** No copy changes a file that was there before. */
  lemma {:induction false} NothingOverwritten(s: Space, rest: nat, held: Held, items: seq<Item>, name: seq<Byte>)
    requires name in held
    ensures name in HeldAfter(s, rest, held, items) && HeldAfter(s, rest, held, items)[name] == held[name]
    decreases |items|
  {
    if items != [] && GoesOn(ItemResult(s, rest, held, items[0])) {
      NothingOverwritten(SpaceAfter(s, rest, held, items[0]), rest, HeldWith(s, rest, held, items[0]), items[1..],
                         name);
    }
  }

  /**
   A copy that was written is there in the end with its data, whatever was copied after it, and one refused
   is empty.
   */
  lemma {:induction false} EachIsHeld(s: Space, rest: nat, held: Held, items: seq<Item>, i: nat)
    requires i < |Results(s, rest, held, items)| && i < |items|
    ensures var r, after := Results(s, rest, held, items)[i], HeldAfter(s, rest, held, items);
            && (r == Written ==> items[i].name in after && after[items[i].name] == items[i].data)
            && (r == Refused ==> items[i].name in after && after[items[i].name] == [])
            && (r == NameTaken && items[i].name != DOT && items[i].name != DOT_DOT ==> items[i].name in after)
    decreases |items|
  {
    var s', held' := s, HeldWith(s, rest, held, items[0]);
    if GoesOn(ItemResult(s, rest, held, items[0])) {
      s' := SpaceAfter(s, rest, held, items[0]);
      if i > 0 {
        EachIsHeld(s', rest, held', items[1..], i - 1);
      } else if items[0].name in held' {
        NothingOverwritten(s', rest, held', items[1..], items[0].name);
      }
    }
  }

  /** An item of that name was written or refused. */
  ghost predicate Copied(results: seq<Result>, items: seq<Item>, name: seq<Byte>) {
    exists i :: 0 <= i < |results| && i < |items| && items[i].name == name &&
      (results[i] == Written || results[i] == Refused)
  }

  /** And nothing else is: what is there was there before, or was copied. */
  lemma {:induction false} NothingElseHeld(s: Space, rest: nat, held: Held, items: seq<Item>, name: seq<Byte>)
    requires name in HeldAfter(s, rest, held, items)
    ensures name in held || Copied(Results(s, rest, held, items), items, name)
    decreases |items|
  {
    if items != [] && GoesOn(ItemResult(s, rest, held, items[0])) && name !in held {
      var s', held' := SpaceAfter(s, rest, held, items[0]), HeldWith(s, rest, held, items[0]);
      var all, later := Results(s, rest, held, items), Results(s', rest, held', items[1..]);
      assert all == [ItemResult(s, rest, held, items[0])] + later;
      NothingElseHeld(s', rest, held', items[1..], name);
      if name !in held' {
        var i :| 0 <= i < |later| && i < |items[1..]| && items[1..][i].name == name &&
                 (later[i] == Written || later[i] == Refused);
        assert all[i + 1] == later[i] && items[i + 1] == items[1..][i];
      } else {
        assert (all[0] == Written || all[0] == Refused) && items[0].name == name;
      }
    }
  }

  // ----- when all are written

  /** All names are new, and none comes twice. */
  ghost predicate NewNames(held: Held, items: seq<Item>) {
    && (forall k :: 0 <= k < |items| ==> IsNewName(held, items[k].name))
    && forall i, j :: 0 <= i < j < |items| ==> items[i].name != items[j].name
  }

  /** Every copy is written with what the ones before it have left. */
  predicate AllFit(s: Space, rest: nat, items: seq<Item>)
    decreases |items|
  {
    items != [] ==>
      && CopyOutcome(s, rest, |items[0].name|, |items[0].data|) == Written
      && AllFit(AfterCopy(s, rest, |items[0].name|, |items[0].data|), rest, items[1..])
  }

  predicate AllWritten(results: seq<Result>) {
    forall i :: 0 <= i < |results| ==> results[i] == Written
  }

  lemma NewNamesNext(held: Held, item: Item, items: seq<Item>)
    ensures NewNames(held, [item] + items) <==>
            NewNames(held[item.name := item.data], items) && IsNewName(held, item.name)
  {
    var held' := held[item.name := item.data];
    assert forall n :: n in held' <==> n in held || n == item.name;
    if NewNames(held, [item] + items) {
      NewNamesRest(held, held', item, items);
    }
    if NewNames(held', items) && IsNewName(held, item.name) {
      NewNamesAll(held, held', item, items);
    }
  }

  lemma NewNamesRest(held: Held, held': Held, item: Item, items: seq<Item>)
    requires NewNames(held, [item] + items) && forall n :: n in held' <==> n in held || n == item.name
    ensures NewNames(held', items) && IsNewName(held, item.name)
  {
    var all := [item] + items;
    assert all[0] == item && forall k :: 0 <= k < |items| ==> all[k + 1] == items[k];
    forall k | 0 <= k < |items|
      ensures IsNewName(held', items[k].name)
    {
      assert all[0].name != all[k + 1].name;
    }
    forall i, j | 0 <= i < j < |items|
      ensures items[i].name != items[j].name
    {
      assert all[i + 1].name != all[j + 1].name;
    }
  }

  lemma NewNamesAll(held: Held, held': Held, item: Item, items: seq<Item>)
    requires NewNames(held', items) && IsNewName(held, item.name)
    requires forall n :: n in held' <==> n in held || n == item.name
    ensures NewNames(held, [item] + items)
  {
    var all := [item] + items;
    assert all[0] == item && forall k :: 0 < k < |all| ==> all[k] == items[k - 1];
    forall k | 0 <= k < |all|
      ensures IsNewName(held, all[k].name)
    {
      assert k > 0 ==> IsNewName(held', items[k - 1].name);
    }
    forall i, j | 0 <= i < j < |all|
      ensures all[i].name != all[j].name
    {
      assert IsNewName(held', items[j - 1].name);
      assert i > 0 ==> items[i - 1].name != items[j - 1].name;
    }
  }

  /** All copies are written exactly if the names are new and all fit. */
  lemma {:induction false} WrittenExactly(s: Space, rest: nat, held: Held, items: seq<Item>)
    ensures AllWritten(Results(s, rest, held, items)) <==> NewNames(held, items) && AllFit(s, rest, items)
    ensures AllWritten(Results(s, rest, held, items)) ==> |Results(s, rest, held, items)| == |items|
    decreases |items|
  {
    if items != [] {
      var item, later := items[0], items[1..];
      assert items == [item] + later;
      var r := ItemResult(s, rest, held, item);
      NewNamesNext(held, item, later);
      assert Results(s, rest, held, items)[0] == r;
      if r == Written {
        var s', held' := AfterCopy(s, rest, |item.name|, |item.data|), held[item.name := item.data];
        WrittenExactly(s', rest, held', later);
        OneMoreWritten(r, Results(s', rest, held', later));
      }
    }
  }

  lemma OneMoreWritten(r: Result, later: seq<Result>)
    ensures AllWritten([r] + later) <==> r == Written && AllWritten(later)
  {
    var all := [r] + later;
    assert all[0] == r && forall i :: 0 <= i < |later| ==> all[i + 1] == later[i];
  }

  // ----- the copies

  /** How far the copies are: what there is, and what is to come of the items from `i` on. */
  datatype Progress = Progress(i: nat, space: Space, held: Held, todo: seq<Result>, end: Held)

  /** Keeps `IsProgress` closed: what it says is in view only where a key is stated. */
  ghost predicate ProgressKey(k: int) {
    true
  }

  ghost predicate IsProgress(rest: nat, items: seq<Item>, g: Progress) {
    forall k {:trigger ProgressKey(k)} :: ProgressKey(k) ==>
      && g.i <= |items| && g.todo == Results(g.space, rest, g.held, items[g.i..])
      && g.end == HeldAfter(g.space, rest, g.held, items[g.i..])
  }

  ghost function Progresses(rest: nat, items: seq<Item>): iset<Progress> {
    iset g: Progress | IsProgress(rest, items, g)
  }

  lemma FirstProgress(s: Space, rest: nat, held: Held, items: seq<Item>) returns (g: Progress)
    ensures g in Progresses(rest, items) && g.i == 0 && g.space == s && g.held == held
    ensures g.todo == Results(s, rest, held, items) && g.end == HeldAfter(s, rest, held, items)
  {
    g := Progress(0, s, held, Results(s, rest, held, items), HeldAfter(s, rest, held, items));
    assert items[0..] == items;
  }

  lemma LastProgress(rest: nat, items: seq<Item>, g: Progress)
    requires g in Progresses(rest, items) && g.i == |items|
    ensures g.todo == [] && g.end == g.held
  {
    assert ProgressKey(0);
  }

  /** Keeps `StillSound` closed: what it says is in view only where a key is stated. */
  ghost predicate SoundKey(k: int) {
    true
  }

  ghost predicate StillSound(m: Mkfs, p: Plan, dir: seq<nat>, files: Files)
    reads m`super, m.img`bytes
  {
    forall k {:trigger SoundKey(k)} :: SoundKey(k) ==> Sound(m, p, dir, files)
  }

  /** cpfs: copies one file after the other, also after one that is refused or whose name is taken. */
  method CopyAll(m: Mkfs, items: seq<Item>, ghost p: Plan, ghost dir0: seq<nat>, ghost files0: Files)
    returns (results: seq<Result>, ghost dir: seq<nat>, ghost files: Files)
    requires p.Ok() && Sound(m, p, dir0, files0) && Copyable(items)
    modifies m`super, m.img`bytes, m.img`pos
    ensures results == Results(old(SpaceOf(m.img.bytes, dir0)), m.restBlocks, Contents(files0), items)
    ensures Completes(results) ==>
      && Sound(m, p, dir, files) && |m.img.bytes| == |old(m.img.bytes)|
      && Contents(files) == HeldAfter(old(SpaceOf(m.img.bytes, dir0)), m.restBlocks, Contents(files0), items)
  {
    ghost var g := FirstProgress(SpaceOf(m.img.bytes, dir0), m.restBlocks, Contents(files0), items);
    results, dir, files := CopyItems(m, items, p, dir0, files0, g);
    assert SoundKey(0);
  }

  /** The loop of cpfs. */
  method CopyItems(m: Mkfs, items: seq<Item>, ghost p: Plan, ghost dir0: seq<nat>, ghost files0: Files,
                   ghost g0: Progress)
    returns (results: seq<Result>, ghost dir: seq<nat>, ghost files: Files)
    requires p.Ok() && StillSound(m, p, dir0, files0) && Copyable(items)
    requires g0 in Progresses(m.restBlocks, items) && g0.i == 0
    requires g0.space == SpaceOf(m.img.bytes, dir0) && g0.held == Contents(files0)
    modifies m`super, m.img`bytes, m.img`pos
    ensures results == g0.todo
    ensures Completes(results) ==>
      StillSound(m, p, dir, files) && |m.img.bytes| == |old(m.img.bytes)| && Contents(files) == g0.end
  {
    results, dir, files := [], dir0, files0;
    ghost var g := g0;
    var i := 0;
    while i < |items|
      invariant 0 <= i == g.i <= |items| && StillSound(m, p, dir, files) && |m.img.bytes| == |old(m.img.bytes)|
      invariant g in Progresses(m.restBlocks, items) && g0.todo == results + g.todo && g0.end == g.end
      invariant g.space == SpaceOf(m.img.bytes, dir) && g.held == Contents(files)
    {
      var r;
      r, dir, files, g := CopyNext(m, items, i, p, dir, files, g);
      results := results + [r];
      if !GoesOn(r) {
        assert results[|results| - 1] == r;
        return;
      }
      i := i + 1;
    }
    LastProgress(m.restBlocks, items, g);
  }

  lemma NextItem(s: Space, rest: nat, held: Held, items: seq<Item>, i: nat)
    requires i < |items|
    ensures var r := ItemResult(s, rest, held, items[i]);
            && (!GoesOn(r) ==> Results(s, rest, held, items[i..]) == [r])
            && (GoesOn(r) ==>
                  var s', held' := SpaceAfter(s, rest, held, items[i]), HeldWith(s, rest, held, items[i]);
                  && Results(s, rest, held, items[i..]) == [r] + Results(s', rest, held', items[i + 1..])
                  && HeldAfter(s, rest, held, items[i..]) == HeldAfter(s', rest, held', items[i + 1..]))
  {
    assert items[i..][0] == items[i] && items[i..][1..] == items[i + 1..];
  }

  /** One copy. */
  method CopyNext(m: Mkfs, items: seq<Item>, i: nat, ghost p: Plan, ghost dir0: seq<nat>, ghost files0: Files,
                  ghost g: Progress)
    returns (r: Result, ghost dir: seq<nat>, ghost files: Files, ghost g': Progress)
    requires p.Ok() && StillSound(m, p, dir0, files0) && Copyable(items) && i == g.i < |items|
    requires g in Progresses(m.restBlocks, items)
    requires g.space == SpaceOf(m.img.bytes, dir0) && g.held == Contents(files0)
    modifies m`super, m.img`bytes, m.img`pos
    ensures g.todo == [r] + g'.todo && (!GoesOn(r) ==> g'.todo == [])
    ensures GoesOn(r) ==>
      && StillSound(m, p, dir, files) && |m.img.bytes| == |old(m.img.bytes)|
      && g' in Progresses(m.restBlocks, items) && g'.i == i + 1 && g'.end == g.end
      && g'.space == SpaceOf(m.img.bytes, dir) && g'.held == Contents(files)
  {
    assert ProgressKey(0);
    NextItem(g.space, m.restBlocks, g.held, items, i);
    r, dir, files := CopyItem(m, items[i], p, dir0, files0, g.space, g.held);
    ghost var s', held' := SpaceOf(m.img.bytes, dir), Contents(files);
    g' := Progress(i + 1, s', held', if GoesOn(r) then Results(s', m.restBlocks, held', items[i + 1..]) else [], g.end);
  }

  method CopyItem(m: Mkfs, item: Item, ghost p: Plan, ghost dir0: seq<nat>, ghost files0: Files, ghost s: Space,
                  ghost held: Held)
    returns (r: Result, ghost dir: seq<nat>, ghost files: Files)
    requires p.Ok() && StillSound(m, p, dir0, files0) && LegalName(item.name) && |item.data| < WORD
    requires s == SpaceOf(m.img.bytes, dir0) && held == Contents(files0)
    modifies m`super, m.img`bytes, m.img`pos
    ensures r == ItemResult(s, m.restBlocks, held, item)
    ensures GoesOn(r) ==>
      && StillSound(m, p, dir, files) && |m.img.bytes| == |old(m.img.bytes)|
      && SpaceOf(m.img.bytes, dir) == SpaceAfter(s, m.restBlocks, held, item)
      && Contents(files) == HeldWith(s, m.restBlocks, held, item)
  {
    assert SoundKey(0);
    r, dir, files := CopyFile(m, item.name, item.data, p, dir0, files0);
    if r == Written || r == Refused {
      OneMoreHeld(files0, files, item.name, if r == Written then item.data else []);
    }
  }

  lemma OneMoreHeld(files0: Files, files: Files, name: seq<Byte>, data: seq<Byte>)
    requires files.Keys == files0.Keys + {name} && files[name].data == data
    requires forall n :: n in files0 && n != name ==> n in files && files[n] == files0[n]
    ensures Contents(files) == Contents(files0)[name := data]
  {
    assert forall n :: n in Contents(files) <==> n in files;
    assert forall n :: n in files <==> n in files.Keys;
  }

  /** Files of any size: what the image has for a file, through all levels of pointers, is its data. */
  lemma HeldInFull(m: Mkfs, p: Plan, dir: seq<nat>, files: Files, name: seq<Byte>)
    requires Sound(m, p, dir, files) && name in files
    ensures var rs := RootDirectory.DirRecords(m.img.bytes, dir);
            var n := InodeNo(m.img.bytes, m.g, DirectoryBlock.Find(rs, name));
            |n.blocks| == INODE_BLOCKS && FileWalk.Content(m.img.bytes, n) == Contents(files)[name]
  {
    FileWalk.VolumeContent(m.img.bytes, m.g, dir, files, name);
  }

  /** A sound image of whole bios is one that the kernel can use. */
  lemma SoundIsMounted(m: Mkfs, p: Plan, dir: seq<nat>, files: Files)
    requires Sound(m, p, dir, files) && WholeBios(m.img.bytes)
    ensures KernelReader.Mounted(m.img.bytes, p.First(), dir, files)
  {
  }

  // ----- the round trip

  /** The results of copying to a new image. */
  function NewResults(p: Plan, items: seq<Item>): seq<Result> {
    Results(NewSpace(p), RestBlocks(p, p.Groups()), map[], items)
  }

  function NewHeld(p: Plan, items: seq<Item>): Held {
    HeldAfter(NewSpace(p), RestBlocks(p, p.Groups()), map[], items)
  }

  ghost predicate AllRoomy(p: Plan) {
    forall k: nat :: k < p.Groups() ==> Roomy(p, k)
  }

  /** A new image that has room for all the files holds each with its data. */
  lemma AllHeld(p: Plan, items: seq<Item>, i: nat)
    requires NewNames(map[], items) && AllFit(NewSpace(p), RestBlocks(p, p.Groups()), items) && i < |items|
    ensures Completes(NewResults(p, items)) && items[i].name in NewHeld(p, items)
    ensures NewHeld(p, items)[items[i].name] == items[i].data
  {
    WrittenExactly(NewSpace(p), RestBlocks(p, p.Groups()), map[], items);
    EachIsHeld(NewSpace(p), RestBlocks(p, p.Groups()), map[], items, i);
  }

  /**
   The round trip. An image is made, files are copied to it, in any order and under any names, and the kernel opens
   one by its name and reads it in pieces. All this is done exactly if the groups are roomy and no copy ends the
   program. A file is then found exactly if one was written or refused under that name; what is read is the beginning
   of the bytes that `NewHeld` says, all of them once the pieces add up to their number, except that nothing comes
   from behind the direct blocks: a read from there fails.
   */
  method WriteThenRead(p: Plan, items: seq<Item>, path: seq<Byte>, sizes: seq<nat>)
    returns (ok: bool, isOpen: bool, bytes: seq<Byte>, failed: bool)
    requires p.Ok() && Copyable(items)
    requires (p.blocks + 1) * BLOCK_SIZE % (SECTORS_PER_BIO * SECTOR_SIZE) == 0
    ensures ok <==> AllRoomy(p) && Completes(NewResults(p, items))
    ensures ok ==> (isOpen <==> exists n :: n in NewHeld(p, items) && Opens(path, n))
    ensures forall n :: ok && n in NewHeld(p, items) && Opens(path, n) ==>
      var data := NewHeld(p, items)[n];
      && bytes == data[..Min(KernelReader.Sum(sizes), KernelReader.Readable(data))]
      && (failed <==> |data| > KernelReader.READABLE && sizes != []
                      && KernelReader.Sum(sizes[..|sizes| - 1]) >= KernelReader.READABLE)
  {
    isOpen, bytes, failed := false, [], false;
    var m;
    ghost var dir, files;
    ok, m, dir := MakeFs(p);
    if ok {
      var results;
      assert Contents(map[]) == map[];
      results, dir, files := CopyAll(m, items, p, dir, map[]);
      ok := Completes(results);
      if ok {
        SoundIsMounted(m, p, dir, files);
        isOpen, bytes, failed := KernelReader.OpenAndRead(m.img.bytes, path, sizes, p.First(), dir, files);
      }
    }
  }
}
