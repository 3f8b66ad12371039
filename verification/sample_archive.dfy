/**
  Collection mode: each posted burst is written to the first free file of a
  bounded, zero-padded namespace `0000.csv` .. `9999.csv`, scanning forward
  from a cursor that the request handler keeps between posts.

  The output directory is the set of file names it holds. `os.path.exists`
  becomes membership, creating the file adds its name.
 */
module SampleArchive {
  import opened Wrappers
  import opened Decimal
  import opened Text

  /** Digits in a file number (NUM_FILE_CHARS). */
  const FileChars: nat := 4
  /** Number of slots, 10^FileChars. */
  const Capacity: nat := 10000
  const Extension: string := ".csv"

  /** `str(cnt).zfill(NUM_FILE_CHARS) + '.csv'` */
  function SlotName(cnt: nat): string
  {
    ZFill(NatToString(cnt), FileChars) + Extension
  }

  /** Reads the slot number back out of a name `<digits>.csv`. */
  function SlotIndex(name: string): Option<nat>
  {
    var stem := |name| - |Extension|;
    if stem > 0 && name[stem..] == Extension && AllDigits(name[..stem])
    then Some(DigitsValue(name[..stem]))
    else None
  }

  /** Inside the namespace a name is exactly four digits and the extension. */
  lemma SlotNameShape(cnt: nat)
    requires cnt < Capacity
    ensures |SlotName(cnt)| == FileChars + |Extension|
    ensures AllDigits(SlotName(cnt)[..FileChars])
    ensures SlotName(cnt)[FileChars..] == Extension
  {
    assert Capacity == Pow10(FileChars);
    NatToStringLength(cnt, FileChars);
    ZFillRoundTrip(cnt, FileChars);
    var z := ZFill(NatToString(cnt), FileChars);
    assert SlotName(cnt)[..FileChars] == z;
  }

  /** Every slot's name reads back as that slot. */
  lemma SlotIndexRoundTrip(cnt: nat)
    ensures SlotIndex(SlotName(cnt)) == Some(cnt)
  {
    var z := ZFill(NatToString(cnt), FileChars);
    var name := SlotName(cnt);
    ZFillRoundTrip(cnt, FileChars);
    assert name[..|z|] == z;
    assert name[|z|..] == Extension;
  }

  /** Distinct slots never share a file name. */
  lemma SlotNameInjective(a: nat, b: nat)
    ensures SlotName(a) == SlotName(b) <==> a == b
  {
    SlotIndexRoundTrip(a);
    SlotIndexRoundTrip(b);
  }

  /**
    The scan of the `while` loop: the first slot at or after `cnt` whose
    file is absent, or a value at or beyond the namespace bound when there is none.
   */
  function Scan(dir: set<string>, cnt: nat): (r: nat)
    ensures cnt <= r
    ensures forall k :: cnt <= k < r ==> SlotName(k) in dir
    ensures r < Capacity ==> SlotName(r) !in dir
    ensures r <= Capacity || r == cnt
    decreases Capacity - cnt
  {
    if cnt >= Capacity || SlotName(cnt) !in dir then cnt else Scan(dir, cnt + 1)
  }

  /** A decoded burst; each value is already rendered with `str`. */
  datatype Burst = Burst(x: seq<string>, y: seq<string>, z: seq<string>)

  /** The axis lists are long enough for every index of `x`. */
  predicate Complete(b: Burst)
  {
    |b.x| <= |b.y| && |b.x| <= |b.z|
  }

  /** One CSV record without its line terminator. */
  function RecordLine(a: string, b: string, c: string): string
  {
    a + ", " + b + ", " + c
  }

  /** The text written so far, and whether the write loop ran to its end. */
  datatype Written = Written(text: string, finished: bool)

  /**
    The `try` block writing the first `n` records. Indexing a `y` or `z`
    list that is too short raises, after the fields before it were written.
   */
  function WriteRecords(b: Burst, n: nat): (w: Written)
    requires n <= |b.x|
    ensures w.finished <==> n <= |b.y| && n <= |b.z|
  {
    if n == 0 then Written("", true)
    else
      var w := WriteRecords(b, n - 1);
      var i := n - 1;
      if !w.finished then w
      else if i >= |b.y| then Written(w.text + b.x[i] + ", ", false)
      else if i >= |b.z| then Written(w.text + b.x[i] + ", " + b.y[i] + ", ", false)
      else Written(w.text + RecordLine(b.x[i], b.y[i], b.z[i]) + "\n", true)
  }

  /** The expected record lines for the first `n` ticks. */
  function RecordLines(b: Burst, n: nat): (ls: seq<string>)
    requires n <= |b.x| && n <= |b.y| && n <= |b.z|
    ensures |ls| == n
  {
    if n == 0 then [] else RecordLines(b, n - 1) + [RecordLine(b.x[n - 1], b.y[n - 1], b.z[n - 1])]
  }

  /** A finished write holds one line per record, in order, and nothing after the last newline. */
  lemma {:induction false} RecordsAreLines(b: Burst, n: nat)
    requires n <= |b.x| && n <= |b.y| && n <= |b.z|
    requires NoNewlines(b.x) && NoNewlines(b.y) && NoNewlines(b.z)
    ensures Lines(WriteRecords(b, n).text) == RecordLines(b, n) + [""]
  {
    if n > 0 {
      RecordsAreLines(b, n - 1);
      RecordsAreLinesStep(b, n - 1);
    }
  }

  /** Writing record `i` adds its line before the final empty piece. */
  lemma RecordsAreLinesStep(b: Burst, i: nat)
    requires i < |b.x| && i < |b.y| && i < |b.z|
    requires NoNewlines(b.x) && NoNewlines(b.y) && NoNewlines(b.z)
    requires Lines(WriteRecords(b, i).text) == RecordLines(b, i) + [""]
    ensures Lines(WriteRecords(b, i + 1).text) == RecordLines(b, i + 1) + [""]
  {
    var prev := WriteRecords(b, i).text;
    var line := RecordLine(b.x[i], b.y[i], b.z[i]);
    var before := RecordLines(b, i);
    assert NoNewline(line) by { RecordLineNoNewline(b, i); }
    assert WriteRecords(b, i + 1).text == prev + line + "\n";
    assert Lines(prev + line + "\n") == before + [line, ""] by {
      LinesAppendLine(prev, line);
      assert (before + [""])[..|before|] == before;
    }
  }

  /** A record line of newline-free fields is newline-free. */
  lemma RecordLineNoNewline(b: Burst, i: nat)
    requires i < |b.x| && i < |b.y| && i < |b.z|
    requires NoNewlines(b.x) && NoNewlines(b.y) && NoNewlines(b.z)
    ensures NoNewline(RecordLine(b.x[i], b.y[i], b.z[i]))
  {
    assert NoNewline(b.x[i]) && NoNewline(b.y[i]) && NoNewline(b.z[i]);
  }

  /** The file `parseSamples` created: its slot, its name and what was written into it. */
  datatype CsvFile = CsvFile(slot: nat, name: string, content: string)

  /** The returned cursor, the directory afterwards, and the file created, if any. */
  datatype Archive = Archive(cursor: nat, dir: set<string>, created: Option<CsvFile>)

  /** `parseSamples(json_str, dir, file_num)` of the collection server, after decoding. */
  function ParseSamples(burst: Burst, dir: set<string>, fileNum: nat): (r: Archive)
    ensures r.created.None? <==> forall k :: fileNum <= k < Capacity ==> SlotName(k) in dir
    ensures r.created.None? ==> r.cursor == fileNum && r.dir == dir
    ensures r.created.Some? ==>
      var f := r.created.value;
      && fileNum <= f.slot < Capacity
      && f.name == SlotName(f.slot)
      && f.name !in dir
      && (forall k :: fileNum <= k < f.slot ==> SlotName(k) in dir)
      && r.dir == dir + {f.name}
      && f.content == WriteRecords(burst, |burst.x|).text
      && r.cursor == if Complete(burst) then f.slot else fileNum
  {
    var cnt := Scan(dir, fileNum);
    if cnt >= Capacity then
      Archive(fileNum, dir, None)
    else
      var name := SlotName(cnt);
      var w := WriteRecords(burst, |burst.x|);
      Archive(if w.finished then cnt else fileNum, dir + {name}, Some(CsvFile(cnt, name, w.text)))
  }

  /** The directory and the cursor the handler keeps between posts (the global `file_num`). */
  datatype Collector = Collector(dir: set<string>, fileNum: nat)

  /** The handler's state after a post and the file the post created, if any. */
  datatype Posted = Posted(state: Collector, created: Option<CsvFile>)

  /**
    `do_POST`: the cursor is replaced by what `parseSamples` returns. A body
    that does not decode (`None`) raises inside `parseSamples` before any
    file work, so nothing changes. A write that raises hands the incoming
    cursor back; a write that completes moves the cursor to the new slot.
   */
  function DoPost(s: Collector, payload: Option<Burst>): (r: Posted)
    ensures payload.None? ==> r == Posted(s, None)
    ensures payload.Some? ==> r.created == ParseSamples(payload.value, s.dir, s.fileNum).created
    ensures payload.Some? ==>
      r.state.fileNum == if r.created.Some? && Complete(payload.value) then r.created.value.slot else s.fileNum
    ensures r.state.dir == if r.created.Some? then s.dir + {r.created.value.name} else s.dir
    ensures s.fileNum < Capacity ==> r.state.fileNum < Capacity
  {
    match payload
    case None => Posted(s, None)
    case Some(b) =>
      var a := ParseSamples(b, s.dir, s.fileNum);
      Posted(Collector(a.dir, a.cursor), a.created)
  }

  /** The state after a run of posts and the slots of the files created, in order. */
  datatype RunResult = RunResult(state: Collector, slots: seq<nat>)

  function Run(s: Collector, posts: seq<Option<Burst>>): RunResult
    decreases |posts|
  {
    if posts == [] then RunResult(s, [])
    else
      var p := DoPost(s, posts[0]);
      var rest := Run(p.state, posts[1..]);
      RunResult(rest.state, (if p.created.Some? then [p.created.value.slot] else []) + rest.slots)
  }

  function NamesOf(slots: seq<nat>): set<string>
  {
    set i | 0 <= i < |slots| :: SlotName(slots[i])
  }

  /** Every slot from the cursor up to `last` is taken. */
  ghost predicate TakenThrough(s: Collector, last: int)
  {
    forall k: nat :: s.fileNum <= k <= last ==> SlotName(k) in s.dir
  }

  /** One post, seen from the slots it touches. */
  lemma PostStep(s: Collector, payload: Option<Burst>, last: int)
    requires TakenThrough(s, last)
    ensures var p := DoPost(s, payload);
      && (p.created.None? ==> p.state.dir == s.dir && TakenThrough(p.state, last))
      && (p.created.Some? ==>
            && last < p.created.value.slot < Capacity
            && p.created.value.name == SlotName(p.created.value.slot)
            && p.created.value.name !in s.dir
            && p.state.dir == s.dir + {p.created.value.name}
            && TakenThrough(p.state, p.created.value.slot))
  {
    var p := DoPost(s, payload);
    if p.created.Some? {
      var a := ParseSamples(payload.value, s.dir, s.fileNum);
      assert a.created == p.created;
    }
  }

  lemma NamesOfCons(x: nat, rest: seq<nat>)
    ensures NamesOf([x] + rest) == {SlotName(x)} + NamesOf(rest)
  {
    var slots := [x] + rest;
    forall n | n in NamesOf(slots) ensures n in {SlotName(x)} + NamesOf(rest) {
      var i :| 0 <= i < |slots| && n == SlotName(slots[i]);
      if i > 0 {
        assert slots[i] == rest[i - 1];
      }
    }
    forall n | n in NamesOf(rest) ensures n in NamesOf(slots) {
      var i :| 0 <= i < |rest| && n == SlotName(rest[i]);
      assert slots[i + 1] == rest[i];
    }
    assert SlotName(slots[0]) in NamesOf(slots);
  }

  predicate StrictlyIncreasing(slots: seq<nat>)
  {
    forall i, j :: 0 <= i < j < |slots| ==> slots[i] < slots[j]
  }

  /** Every slot is past `last`, inside the namespace, and names a file absent from `dir`. */
  predicate FreshSlots(slots: seq<nat>, last: int, dir: set<string>)
  {
    forall i :: 0 <= i < |slots| ==> last < slots[i] < Capacity && SlotName(slots[i]) !in dir
  }

  lemma ConsSlots(x: nat, rest: seq<nat>, last: int, dir: set<string>)
    requires last < x < Capacity && SlotName(x) !in dir
    requires FreshSlots(rest, x, dir + {SlotName(x)}) && StrictlyIncreasing(rest)
    ensures FreshSlots([x] + rest, last, dir) && StrictlyIncreasing([x] + rest)
  {
    var slots := [x] + rest;
    forall i | 0 <= i < |slots|
      ensures last < slots[i] < Capacity && SlotName(slots[i]) !in dir
    {
      if i > 0 {
        assert slots[i] == rest[i - 1];
      }
    }
    forall i, j | 0 <= i < j < |slots|
      ensures slots[i] < slots[j]
    {
      assert slots[j] == rest[j - 1];
      if i > 0 {
        assert slots[i] == rest[i - 1];
      }
    }
  }

  /**
    Within a run, the slots of the created files strictly increase, lie past
    every slot already known to be taken, were absent from the directory at
    the start, and the directory grows by exactly their names.
   */
  lemma {:induction false} RunSlotsIncrease(s: Collector, posts: seq<Option<Burst>>, last: int)
    requires TakenThrough(s, last)
    ensures var r := Run(s, posts);
      && FreshSlots(r.slots, last, s.dir)
      && StrictlyIncreasing(r.slots)
      && r.state.dir == s.dir + NamesOf(r.slots)
    decreases |posts|
  {
    if posts != [] {
      var p := DoPost(s, posts[0]);
      var rest := Run(p.state, posts[1..]);
      PostStep(s, posts[0], last);
      if p.created.None? {
        RunSlotsIncrease(p.state, posts[1..], last);
        assert Run(s, posts) == RunResult(rest.state, rest.slots);
      } else {
        var f := p.created.value;
        RunSlotsIncrease(p.state, posts[1..], f.slot);
        assert Run(s, posts) == RunResult(rest.state, [f.slot] + rest.slots);
        NamesOfCons(f.slot, rest.slots);
        ConsSlots(f.slot, rest.slots, last, s.dir);
      }
    }
  }

  /** No file name is ever produced twice in a run, and none that existed before it. */
  lemma RunNeverReusesNames(s: Collector, posts: seq<Option<Burst>>)
    ensures var r := Run(s, posts);
      && (forall i, j :: 0 <= i < j < |r.slots| ==> SlotName(r.slots[i]) != SlotName(r.slots[j]))
      && (forall i :: 0 <= i < |r.slots| ==> SlotName(r.slots[i]) !in s.dir)
      && r.state.dir == s.dir + NamesOf(r.slots)
  {
    RunSlotsIncrease(s, posts, s.fileNum as int - 1);
    var r := Run(s, posts);
    forall i, j | 0 <= i < j < |r.slots| ensures SlotName(r.slots[i]) != SlotName(r.slots[j]) {
      SlotNameInjective(r.slots[i], r.slots[j]);
    }
  }

  /** The names of slots 0 .. m-1. */
  function Prefilled(m: nat): set<string>
  {
    if m == 0 then {} else Prefilled(m - 1) + {SlotName(m - 1)}
  }

  lemma {:induction false} PrefilledHas(m: nat, k: nat)
    requires k < m
    ensures SlotName(k) in Prefilled(m)
  {
    if k < m - 1 {
      PrefilledHas(m - 1, k);
    }
  }

  lemma {:induction false} PrefilledOnly(m: nat, j: nat)
    requires SlotName(j) in Prefilled(m)
    ensures j < m
  {
    if SlotName(j) == SlotName(m - 1) {
      SlotNameInjective(j, m - 1);
    } else {
      PrefilledOnly(m - 1, j);
    }
  }

  /** When slots below m are exactly the taken ones, a scan from at or below m stops at m. */
  lemma ScanStopsAtFirstGap(m: nat, cnt: nat)
    requires cnt <= m < Capacity
    ensures Scan(Prefilled(m), cnt) == m
  {
    var r := Scan(Prefilled(m), cnt);
    if r < m {
      PrefilledHas(m, r);
    } else if r > m {
      PrefilledOnly(m, m);
    }
  }

  /** A complete burst posted with slots 0 .. m-1 taken and the cursor at or below m lands in slot m. */
  lemma PrefilledPost(m: nat, fileNum: nat, b: Burst)
    requires fileNum <= m < Capacity && Complete(b)
    ensures DoPost(Collector(Prefilled(m), fileNum), Some(b))
      == Posted(Collector(Prefilled(m + 1), m), Some(CsvFile(m, SlotName(m), WriteRecords(b, |b.x|).text)))
  {
    ScanStopsAtFirstGap(m, fileNum);
  }

  /** The slots m, m+1, ..., m+n-1. */
  function Range(m: nat, n: nat): (r: seq<nat>)
    ensures |r| == n
    ensures forall i :: 0 <= i < n ==> r[i] == m + i
    decreases n
  {
    if n == 0 then [] else [m] + Range(m + 1, n - 1)
  }

  /** Every post decodes and carries complete axis lists. */
  predicate AllComplete(posts: seq<Option<Burst>>)
  {
    forall i :: 0 <= i < |posts| ==> posts[i].Some? && Complete(posts[i].value)
  }

  lemma AllCompleteTail(posts: seq<Option<Burst>>)
    requires posts != [] && AllComplete(posts)
    ensures posts[0].Some? && Complete(posts[0].value) && AllComplete(posts[1..])
  {
    var tail := posts[1..];
    forall i | 0 <= i < |tail| ensures tail[i] == posts[i + 1] {
    }
  }

  /**
    Starting from slots 0 .. m-1 taken and the cursor at or below m, posts
    whose axis lists are complete fill slots m, m+1, ... in order.
   */
  lemma {:induction false} RunFillsInOrder(m: nat, fileNum: nat, posts: seq<Option<Burst>>)
    requires fileNum <= m && m + |posts| <= Capacity
    requires AllComplete(posts)
    ensures Run(Collector(Prefilled(m), fileNum), posts).slots == Range(m, |posts|)
    decreases |posts|
  {
    if posts != [] {
      var tail := posts[1..];
      AllCompleteTail(posts);
      var rest := Run(Collector(Prefilled(m + 1), m), tail).slots;
      assert rest == Range(m + 1, |tail|) by { RunFillsInOrder(m + 1, m, tail); }
      assert Run(Collector(Prefilled(m), fileNum), posts).slots == [m] + rest by { RunFirstSlot(m, fileNum, posts); }
      assert Range(m, |posts|) == [m] + Range(m + 1, |tail|);
    }
  }

  /** The first complete post of such a run takes slot m; the rest of the run continues from there. */
  lemma RunFirstSlot(m: nat, fileNum: nat, posts: seq<Option<Burst>>)
    requires fileNum <= m < Capacity && posts != [] && posts[0].Some? && Complete(posts[0].value)
    ensures Run(Collector(Prefilled(m), fileNum), posts).slots
      == [m] + Run(Collector(Prefilled(m + 1), m), posts[1..]).slots
  {
    PrefilledPost(m, fileNum, posts[0].value);
  }

  /**
    With slots 0 .. m-1 present, a post from a cursor at or below m creates
    slot m, whatever the cursor was.
   */
  lemma ResumesAfterPrefilled(b: Burst, m: nat, cursor: nat)
    requires cursor <= m < Capacity
    ensures ParseSamples(b, Prefilled(m), cursor).created.Some?
    ensures ParseSamples(b, Prefilled(m), cursor).created.value.name == SlotName(m)
  {
    ScanStopsAtFirstGap(m, cursor);
  }

  /** So with `0000.csv` .. `0004.csv` present, the next file is `0005.csv`. */
  lemma FifthSlotName()
    ensures SlotName(5) == "0005.csv"
  {
    assert NatToString(5) == "5";
    assert Repeat('0', 3) == "000";
  }
}
