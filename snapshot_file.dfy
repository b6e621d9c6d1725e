/** Snapshot files, from `dir_snapshot/snapshot.py`: the name under which a
    snapshot is stored (`generate_snp_filename`) and the two-value pickle
    stream it is stored as (`write_snp_data`, `read_snp_data`). The clock, the
    pickle byte format and the operating system's failures are inputs: a
    file is the sequence of values `pickle.load` would read back from it. */
module SnapshotFile {
  import opened PyStr
  import opened Snapshot

  // ---------------------------------------------------------------------
  // generate_snp_filename

  type Year = y: int | 1 <= y <= 9999 witness 1
  type Month = m: int | 1 <= m <= 12 witness 1
  type Day = d: int | 1 <= d <= 31 witness 1
  type Hour = h: int | 0 <= h <= 23
  type Minute = m: int | 0 <= m <= 59
  type Second = s: int | 0 <= s <= 59
  type Microsecond = u: int | 0 <= u <= 999999

  /** The value `datetime.datetime.now()` returns. */
  datatype DateTime = DateTime(
    year: Year, month: Month, day: Day,
    hour: Hour, minute: Minute, second: Second,
    microsecond: Microsecond)

  /** Two instants within the same second of the clock. */
  predicate SameSecond(t1: DateTime, t2: DateTime) {
    t1.year == t2.year && t1.month == t2.month && t1.day == t2.day
    && t1.hour == t2.hour && t1.minute == t2.minute && t1.second == t2.second
  }

  /** `now.strftime("%Y%m%d%H%M%S")`: six zero-padded fields, 14 digits. */
  function Timestamp(t: DateTime): (r: string)
    ensures |r| == 14 && AllDigits(r)
  {
    Pad4(t.year) + Pad2(t.month) + Pad2(t.day) + Pad2(t.hour) + Pad2(t.minute) + Pad2(t.second)
  }

  /** The extension written into every snapshot name. */
  const SnpExtension := ".snp"

  /** `(get_snapshot_dir() / f"snapshot-{id}-{timestamp}.snp").as_posix()`,
      where `snapshotDir` is the POSIX form of the snapshot directory and
      `now` the clock reading. */
  function GenerateSnpFilename(snapshotDir: string, id: int, now: DateTime): (r: string)
    ensures |r| == |snapshotDir| + |IntToStr(id)| + 29
    ensures r[..|snapshotDir| + 1] == snapshotDir + "/"
    ensures r[|r| - 4..] == SnpExtension
  {
    var head, num, ts := snapshotDir + "/" + "snapshot-", IntToStr(id), Timestamp(now);
    Layout(head, num, ts, SnpExtension);
    assert head[..|snapshotDir| + 1] == snapshotDir + "/";
    head + num + "-" + ts + SnpExtension
  }

  /** The timestamp can be read back field by field. */
  lemma TimestampFields(t: DateTime)
    ensures Timestamp(t)[..4] == Pad4(t.year)
    ensures Timestamp(t)[4..6] == Pad2(t.month)
    ensures Timestamp(t)[6..8] == Pad2(t.day)
    ensures Timestamp(t)[8..10] == Pad2(t.hour)
    ensures Timestamp(t)[10..12] == Pad2(t.minute)
    ensures Timestamp(t)[12..] == Pad2(t.second)
  {
  }

  /** Timestamps differ exactly when the instants fall in different seconds. */
  lemma TimestampInjective(t1: DateTime, t2: DateTime)
    ensures Timestamp(t1) == Timestamp(t2) <==> SameSecond(t1, t2)
  {
    if Timestamp(t1) == Timestamp(t2) {
      TimestampFields(t1);
      TimestampFields(t2);
      Pad4Injective(t1.year, t2.year);
      Pad2Injective(t1.month, t2.month);
      Pad2Injective(t1.day, t2.day);
      Pad2Injective(t1.hour, t2.hour);
      Pad2Injective(t1.minute, t2.minute);
      Pad2Injective(t1.second, t2.second);
    }
  }

  /** The name has the fixed layout: the directory, `/snapshot-`, the
      decimal id, `-`, a 14-digit timestamp and `.snp`. */
  lemma FilenameLayout(snapshotDir: string, id: int, now: DateTime)
    ensures var name := GenerateSnpFilename(snapshotDir, id, now);
            var p := |snapshotDir| + 10;
            var n := |IntToStr(id)|;
            && |name| == p + n + 19
            && name[..p] == snapshotDir + "/snapshot-"
            && name[p..p + n] == IntToStr(id)
            && name[p + n] == '-'
            && name[p + n + 1..p + n + 15] == Timestamp(now)
            && AllDigits(name[p + n + 1..p + n + 15])
            && name[p + n + 15..] == ".snp"
  {
    var head, num, ts := snapshotDir + "/snapshot-", IntToStr(id), Timestamp(now);
    var name := GenerateSnpFilename(snapshotDir, id, now);
    assert snapshotDir + "/" + "snapshot-" == head;
    assert name == head + num + "-" + ts + ".snp";
    assert |head| == |snapshotDir| + 10 && |ts| == 14;
    Layout(head, num, ts, ".snp");
    assert name[|head| + |num| + 1..|head| + |num| + 15] == ts;
  }

  /** Where the parts of `head + num + "-" + ts + ext` sit. */
  lemma Layout(head: string, num: string, ts: string, ext: string)
    ensures var name := head + num + "-" + ts + ext;
            var p, n, t := |head|, |num|, |ts|;
            && |name| == p + n + 1 + t + |ext|
            && name[..p] == head
            && name[p..p + n] == num
            && name[p + n] == '-'
            && name[p + n + 1..p + n + 1 + t] == ts
            && name[p + n + 1 + t..] == ext
  {
    var name := head + num + "-" + ts + ext;
    assert name == head + (num + ("-" + (ts + ext)));
    var p, n := |head|, |num|;
    assert name[p..] == num + ("-" + (ts + ext));
    assert name[p + n..] == "-" + (ts + ext);
    assert name[p + n + 1..] == ts + ext;
  }

  /** Two snapshots of one directory taken within the same second get the
      same name, so the second overwrites the first. */
  lemma SameSecondSameName(snapshotDir: string, id: int, t1: DateTime, t2: DateTime)
    requires SameSecond(t1, t2)
    ensures GenerateSnpFilename(snapshotDir, id, t1) == GenerateSnpFilename(snapshotDir, id, t2)
  {
    TimestampInjective(t1, t2);
  }

  /** Otherwise names do not collide: in one snapshot directory, equal names
      mean the same id and the same second. */
  lemma FilenameInjective(snapshotDir: string, id1: int, t1: DateTime, id2: int, t2: DateTime)
    requires GenerateSnpFilename(snapshotDir, id1, t1) == GenerateSnpFilename(snapshotDir, id2, t2)
    ensures id1 == id2 && SameSecond(t1, t2)
  {
    var name := GenerateSnpFilename(snapshotDir, id1, t1);
    FilenameLayout(snapshotDir, id1, t1);
    FilenameLayout(snapshotDir, id2, t2);
    var p := |snapshotDir| + 10;
    assert |IntToStr(id1)| == |IntToStr(id2)|;
    var n := |IntToStr(id1)|;
    assert IntToStr(id1) == name[p..p + n] == IntToStr(id2);
    IntToStrInjective(id1, id2);
    assert Timestamp(t1) == name[p + n + 1..p + n + 15] == Timestamp(t2);
    TimestampInjective(t1, t2);
  }

  // ---------------------------------------------------------------------
  // write_snp_data / read_snp_data

  /** One value of a pickle stream: a list of strings, or data on which
      `pickle.load` raises. */
  datatype Pickled = Pickled(items: seq<string>) | Unloadable

  /** How `open(file, "wb")` and the two `pickle.dump` calls end: normally,
      or with an `OSError`, after which the file holds whatever the system
      left in it. */
  datatype WriteOutcome = WriteCompletes | WriteRaisesOSError(leftBehind: seq<Pickled>)

  /** The result `write_snp_data` returns and what the file holds afterwards. */
  datatype WriteEffect = WriteEffect(ok: bool, contents: seq<Pickled>)

  /** `write_snp_data`: the file is truncated and receives `dirs` then
      `files`; any `OSError` makes it return `False`. */
  function WriteSnpData(snapshotData: SnapshotData, outcome: WriteOutcome): (r: WriteEffect)
    ensures r.ok <==> outcome.WriteCompletes?
    ensures r.ok ==> ReadSnpData(r.contents, ReadCompletes) == Loaded(snapshotData)
  {
    match outcome
    case WriteCompletes =>
      WriteEffect(true, [Pickled(snapshotData.dirs), Pickled(snapshotData.files)])
    case WriteRaisesOSError(leftBehind) =>
      WriteEffect(false, leftBehind)
  }

  /** How `open(file, "rb")` and the two `pickle.load` calls end: normally,
      or with an `OSError` (a missing file, or an I/O error part-way through
      reading, among them). */
  datatype ReadOutcome = ReadCompletes | ReadRaisesOSError

  /** What `read_snp_data` gives back: a snapshot; the pair `([], [])` it
      returns on `OSError`, which is a tuple and not a `SnapshotData`; or an
      exception it does not catch (`EOFError` on a file of fewer than two
      values, an unpickling error on unloadable data). */
  datatype ReadResult = Loaded(data: SnapshotData) | EmptyPair | Raises

  /** `read_snp_data`: the first value read becomes `dirs`, the second
      `files`; anything after them is never read. */
  function ReadSnpData(contents: seq<Pickled>, outcome: ReadOutcome): (r: ReadResult)
    ensures r.EmptyPair? <==> outcome.ReadRaisesOSError?
    ensures r.Loaded? ==>
              |contents| >= 2 && contents[0] == Pickled(r.data.dirs) && contents[1] == Pickled(r.data.files)
  {
    if outcome.ReadRaisesOSError? then EmptyPair
    else if |contents| == 0 || contents[0].Unloadable? then Raises
    else if |contents| == 1 || contents[1].Unloadable? then Raises
    else Loaded(SnapshotData(dirs := contents[0].items, files := contents[1].items))
  }

  /** Round trip: a snapshot written successfully reads back equal, with
      `dirs` and `files` in their places and in their order. */
  lemma CodecRoundTrip(snapshotData: SnapshotData)
    ensures WriteSnpData(snapshotData, WriteCompletes).ok
    ensures ReadSnpData(WriteSnpData(snapshotData, WriteCompletes).contents, ReadCompletes)
         == Loaded(snapshotData)
  {
  }

  /** `write_snp_data` returns `False` exactly when an `OSError` was raised,
      and a successful write leaves exactly two values, `dirs` first. */
  lemma WriteResult(snapshotData: SnapshotData, outcome: WriteOutcome)
    ensures WriteSnpData(snapshotData, outcome).ok <==> outcome.WriteCompletes?
    ensures WriteSnpData(snapshotData, outcome).ok ==>
              WriteSnpData(snapshotData, outcome).contents
              == [Pickled(snapshotData.dirs), Pickled(snapshotData.files)]
  {
  }

  /** `read_snp_data` yields a snapshot exactly when no `OSError` is raised
      and the file's first two values load; the first is then `dirs` and the
      second `files`. An `OSError` while opening or loading always yields the
      empty pair instead. */
  lemma ReadResultCases(contents: seq<Pickled>, outcome: ReadOutcome, d: SnapshotData)
    ensures ReadSnpData(contents, outcome) == Loaded(d)
        <==> outcome.ReadCompletes? && |contents| >= 2
             && contents[0] == Pickled(d.dirs) && contents[1] == Pickled(d.files)
    ensures outcome.ReadRaisesOSError? <==> ReadSnpData(contents, outcome) == EmptyPair
  {
  }

  /** Values after the first two do not change what is read. */
  lemma ReadIgnoresRest(contents: seq<Pickled>, rest: seq<Pickled>, outcome: ReadOutcome)
    requires |contents| >= 2
    ensures ReadSnpData(contents + rest, outcome) == ReadSnpData(contents, outcome)
  {
    assert (contents + rest)[0] == contents[0] && (contents + rest)[1] == contents[1];
  }
}
