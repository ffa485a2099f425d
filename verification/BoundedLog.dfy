// Diagnostic log files that stop growing at a cap, and the pruning of old
// ones.
module BoundedLog {

  type Byte = bv8
  type Bytes = seq<Byte>

  const MAX_FILE_BYTES: nat := 786432      // 768 KiB
  const MAX_TOTAL_BYTES: nat := 16777216   // 16 MiB
  const MAX_FILES: nat := 48

  // What the file may hold of a text.
  function Capped(text: Bytes): Bytes {
    if |text| <= MAX_FILE_BYTES then text else text[..MAX_FILE_BYTES]
  }

  // A file that is already over the cap is left as it is.
  function Holds(initial: Bytes, data: Bytes): Bytes {
    if |initial| >= MAX_FILE_BYTES then initial else Capped(initial + data)
  }

  lemma {:induction false} HoldsMore(initial: Bytes, before: Bytes, data: Bytes)
    ensures var held, room := Holds(initial, before), MAX_FILE_BYTES - |Holds(initial, before)|;
            Holds(initial, before + data) == if room <= 0 then held else if |data| <= room then held + data else held + data[..room]
  {
    assert initial + (before + data) == (initial + before) + data;
  }

  class File {
    // The file on disk, and whether it is still open.
    var contents: Bytes
    var open: bool
    var written: nat
    var capped: bool
    // What the file held when it was opened, and all that was sent to it since.
    ghost const initial: Bytes
    ghost var sent: Bytes
    // No write to the disk has failed.
    ghost var whole: bool

    ghost predicate Valid()
      reads this
    {
      && written == |contents|
      && initial <= contents
      && |contents| <= (if |initial| <= MAX_FILE_BYTES then MAX_FILE_BYTES else |initial|)
      && (whole ==> contents == Holds(initial, sent) && (capped ==> |contents| >= MAX_FILE_BYTES))
    }

    constructor Open(onDisk: Bytes)
      ensures Valid() && open && whole && initial == onDisk && sent == [] && contents == onDisk
    {
      contents, open := onDisk, true;
      written, capped := |onDisk|, |onDisk| >= MAX_FILE_BYTES;
      initial, sent, whole := onDisk, [], true;
      new;
      assert onDisk + [] == onDisk;
    }

    // `room` is how much the disk still takes: a write beyond it is short and
    // reports an error.
    method Write(data: Bytes, room: nat) returns (reported: nat, failed: bool)
      requires Valid()
      modifies this
      ensures Valid()
      ensures reported == |data|
      ensures open == old(open) && whole == (old(whole) && !failed)
      ensures old(contents) <= contents
      ensures !open ==> !failed && contents == old(contents) && sent == old(sent)
      ensures open ==> sent == old(sent) + data
      ensures failed ==> |contents| == |old(contents)| + room
      ensures |data| <= room ==> !failed
    {
      reported, failed := |data|, false;
      if |data| == 0 {
        if open {
          sent := sent + data;
          assert sent == old(sent);
        }
        return;
      }
      HoldsMore(initial, sent, data);
      if !open {
        return;
      }
      sent := sent + data;
      if capped {
        return;
      }
      var remaining := MAX_FILE_BYTES - written;
      if remaining <= 0 {
        capped := true;
        return;
      }
      var toWrite := data;
      if |toWrite| > remaining {
        toWrite := toWrite[..remaining];
        capped := true;
      }
      var accepted := if |toWrite| <= room then |toWrite| else room;
      failed := accepted < |toWrite|;
      whole := whole && !failed;
      contents := contents + toWrite[..accepted];
      written := written + accepted;
      assert !failed ==> toWrite[..accepted] == toWrite;
    }

    // Closing twice does nothing the second time.
    method Close()
      modifies this`open
      ensures !open
      ensures old(Valid()) ==> Valid()
    {
      if open {
        open := false;
      }
    }
  }

  function Concat(writes: seq<Bytes>): Bytes {
    if writes == [] then [] else Concat(writes[..|writes| - 1]) + writes[|writes| - 1]
  }

  lemma {:induction false} ConcatIs(writes: seq<Bytes>, data: Bytes)
    ensures Concat([]) == [] && Concat(writes + [data]) == Concat(writes) + data
  {
    assert (writes + [data])[..|writes|] == writes;
  }

  // After any writes before Close, and any after it, the file is the first
  // 768 KiB of what it held and what was sent before, whatever the pieces.
  method WriteAll(onDisk: Bytes, before: seq<Bytes>, after: seq<Bytes>) returns (result: Bytes)
    ensures result == Holds(onDisk, Concat(before))
    ensures var text := onDisk + Concat(before);
            result == if |onDisk| >= 786432 then onDisk else if |text| <= 786432 then text else text[..786432]
  {
    var file := new File.Open(onDisk);
    for i := 0 to |before|
      invariant file.Valid() && file.whole && file.open && file.initial == onDisk && file.sent == Concat(before[..i])
      invariant fresh(file)
    {
      var _, _ := file.Write(before[i], |before[i]|);
      assert before[..i + 1][..i] == before[..i];
    }
    assert before[..|before|] == before;
    file.Close();
    for i := 0 to |after|
      invariant file.Valid() && file.whole && !file.open && file.initial == onDisk && file.sent == Concat(before)
      invariant fresh(file)
    {
      var _, _ := file.Write(after[i], |after[i]|);
    }
    file.Close();
    return file.contents;
  }

  // ----- pruning -----

  datatype LogEntry = LogEntry(path: string, modTime: int, size: nat)

  function TotalSize(logs: seq<LogEntry>): nat {
    if logs == [] then 0 else logs[0].size + TotalSize(logs[1..])
  }

  // The sizes of those that cannot be removed.
  function StuckSize(logs: seq<LogEntry>, stuck: set<string>): nat {
    if logs == [] then 0 else (if logs[0].path in stuck then logs[0].size else 0) + StuckSize(logs[1..], stuck)
  }

  lemma {:induction false} SizesAre(logs: seq<LogEntry>, e: LogEntry, stuck: set<string>)
    ensures TotalSize([]) == StuckSize([], stuck) == 0
    ensures TotalSize(logs + [e]) == TotalSize(logs) + e.size
    ensures StuckSize(logs + [e], stuck) == StuckSize(logs, stuck) + if e.path in stuck then e.size else 0
    decreases |logs|
  {
    if logs == [] {
      assert [] + [e] == [e] && [e][1..] == [];
    } else {
      SizesAre(logs[1..], e, stuck);
      assert (logs + [e])[1..] == logs[1..] + [e];
    }
  }

  // Trying to remove the first k leaves few and small enough.
  ghost predicate Enough(logs: seq<LogEntry>, stuck: set<string>, k: nat)
    requires k <= |logs|
  {
    |logs| - k < MAX_FILES && StuckSize(logs[..k], stuck) + TotalSize(logs[k..]) <= MAX_TOTAL_BYTES
  }

  lemma {:induction false} EnoughIs(logs: seq<LogEntry>, stuck: set<string>, k: nat)
    requires k <= |logs|
    ensures Enough(logs, stuck, k)
            <==> |logs| - k <= 47 && StuckSize(logs[..k], stuck) + TotalSize(logs[k..]) <= 16777216
  {
  }

  ghost predicate OldestFirst(logs: seq<LogEntry>) {
    forall i, j :: 0 <= i < j < |logs| ==> logs[i].modTime <= logs[j].modTime
  }

  datatype Pruned = Done(removed: set<string>, tried: nat) | IndexOutOfRange

  // The loop of prune over the sorted logs. Removing fails for the paths in
  // `stuck`.
  method Prune(sorted: seq<LogEntry>, stuck: set<string>) returns (result: Pruned)
    ensures result.Done? ==>
              && result.tried <= |sorted|
              && Enough(sorted, stuck, result.tried)
              && (forall k :: 0 <= k < result.tried ==> !Enough(sorted, stuck, k))
              && result.removed == set i | 0 <= i < result.tried && sorted[i].path !in stuck :: sorted[i].path
    ensures result.IndexOutOfRange? <==> StuckSize(sorted, stuck) > 16777216
  {
    var total := Add(sorted);
    var logs := sorted;
    var removed: set<string> := {};
    var k: nat := 0;
    assert sorted[..0] == [];
    while |logs| >= MAX_FILES || total > MAX_TOTAL_BYTES
      invariant k <= |sorted| && logs == sorted[k..]
      invariant total == StuckSize(sorted[..k], stuck) + TotalSize(logs)
      invariant forall m :: 0 <= m < k ==> !Enough(sorted, stuck, m)
      invariant removed == set i | 0 <= i < k && sorted[i].path !in stuck :: sorted[i].path
      decreases |logs|
    {
      if logs == [] {
        assert sorted[..k] == sorted;
        return IndexOutOfRange;
      }
      assert !Enough(sorted, stuck, k);
      var oldest := logs[0];
      logs := logs[1..];
      if oldest.path !in stuck {
        removed := removed + {oldest.path};
        total := total - oldest.size;
      }
      StuckNext(sorted, stuck, k);
      k := k + 1;
    }
    StuckAtMost(sorted, stuck, k);
    return Done(removed, k);
  }

  method Add(logs: seq<LogEntry>) returns (total: nat)
    ensures total == TotalSize(logs)
  {
    total := 0;
    for i := 0 to |logs|
      invariant total + TotalSize(logs[i..]) == TotalSize(logs)
    {
      total := total + logs[i].size;
      assert logs[i..][1..] == logs[i + 1..];
    }
  }

  lemma {:induction false} StuckNext(logs: seq<LogEntry>, stuck: set<string>, k: nat)
    requires k < |logs|
    ensures StuckSize(logs[..k + 1], stuck)
            == StuckSize(logs[..k], stuck) + if logs[k].path in stuck then logs[k].size else 0
    decreases k
  {
    if k > 0 {
      StuckNext(logs[1..], stuck, k - 1);
      assert logs[..k + 1][1..] == logs[1..][..k] && logs[..k][1..] == logs[1..][..k - 1];
    } else {
      assert logs[..1][1..] == [] && logs[..0] == [];
    }
  }

  lemma {:induction false} StuckAtMost(logs: seq<LogEntry>, stuck: set<string>, k: nat)
    requires k <= |logs|
    ensures StuckSize(logs, stuck) <= StuckSize(logs[..k], stuck) + TotalSize(logs[k..])
    decreases |logs|
  {
    if k > 0 {
      StuckAtMost(logs[1..], stuck, k - 1);
      assert logs[..k][1..] == logs[1..][..k - 1] && logs[1..][k - 1..] == logs[k..];
    } else if logs != [] {
      StuckAtMost(logs[1..], stuck, 0);
      assert logs[0..] == logs && logs[1..][0..] == logs[1..] && logs[..0] == [] && logs[1..][..0] == [];
    } else {
      assert logs[..0] == [];
    }
  }

  // When removing works, what stays is the newest that fit: fewer than 48, at
  // most 16 MiB, none older than one that went, and one more would be too many
  // or too much.
  method PruneAll(sorted: seq<LogEntry>) returns (kept: seq<LogEntry>)
    requires OldestFirst(sorted)
    ensures |kept| <= |sorted| && kept == sorted[|sorted| - |kept|..]
    ensures |kept| < 48 && TotalSize(kept) <= 16777216
    ensures forall i, j :: 0 <= i < |sorted| - |kept| && 0 <= j < |kept| ==> sorted[i].modTime <= kept[j].modTime
    ensures |kept| < |sorted| ==>
              |kept| + 1 >= 48 || TotalSize(sorted[|sorted| - |kept| - 1..]) > 16777216
  {
    NothingStuck(sorted);
    var result := Prune(sorted, {});
    var k := result.tried;
    kept := sorted[k..];
    NothingStuck(sorted[..k]);
    if k > 0 {
      assert !Enough(sorted, {}, k - 1);
      NothingStuck(sorted[..k - 1]);
    }
  }

  lemma {:induction false} NothingStuck(logs: seq<LogEntry>)
    ensures StuckSize(logs, {}) == 0
  {
    if logs != [] {
      NothingStuck(logs[1..]);
    }
  }
}
