/**
 * `CredentialsManager` (src/credentials_manager.rs): the credentials directory
 * as a map from file name to file, enumerated by `GetAll` and extended by `Add`.
 */
module CredentialsManager {
  import opened Wrappers
  import opened Errors
  import opened Text
  import opened Credentials

  // ---------------------------------------------------------------------------
  // File names: `Utc::now().format("%Y-%m-%d_%H-%M-%S.toml")`
  // ---------------------------------------------------------------------------

  /** A UTC calendar time to the second, as chrono's formatter sees it. */
  datatype DateTime = DateTime(year: nat, month: nat, day: nat, hour: nat, minute: nat, second: nat)

  /** The ranges of the fields; `second` reaches 60 on a leap second. */
  predicate ValidTime(t: DateTime) {
    && t.year <= 9999
    && 1 <= t.month <= 12 && 1 <= t.day <= 31
    && t.hour <= 23 && t.minute <= 59 && t.second <= 60
  }

  type UtcTime = t: DateTime | ValidTime(t) witness DateTime(1970, 1, 1, 0, 0, 0)

  /** `n` zero-padded to two digits (`%m`, `%d`, `%H`, `%M`, `%S`). */
  function Pad2(n: nat): (s: string)
    requires n < 100
    ensures |s| == 2 && (forall i :: 0 <= i < 2 ==> IsDigit(s[i])) && DecimalValue(s) == n
  {
    var s := [Digit(n / 10), Digit(n % 10)];
    assert s[..1] == [s[0]] && [s[0]][..0] == [];
    assert DecimalValue(s[..1]) == n / 10;
    s
  }

  /** Two more digits multiply the value of what precedes them by a hundred. */
  lemma DecimalValueAppend2(a: string, b: string)
    requires forall i :: 0 <= i < |a| ==> IsDigit(a[i])
    requires |b| == 2 && IsDigit(b[0]) && IsDigit(b[1])
    ensures forall i :: 0 <= i < |a + b| ==> IsDigit((a + b)[i])
    ensures DecimalValue(a + b) == DecimalValue(a) * 100 + DecimalValue(b)
  {
    var ab := a + b;
    assert ab[..|ab| - 1] == a + [b[0]];
    assert (a + [b[0]])[..|a|] == a;
    assert DecimalValue(a + [b[0]]) == DecimalValue(a) * 10 + DigitValue(b[0]);
    assert DecimalValue(ab) == DecimalValue(a + [b[0]]) * 10 + DigitValue(b[1]);
    assert b[..1][..0] == [];
    assert DecimalValue(b[..1]) == DigitValue(b[0]);
    assert DecimalValue(b) == DigitValue(b[0]) * 10 + DigitValue(b[1]);
  }

  /** `n` zero-padded to four digits (`%Y` for the years 0 to 9999). */
  function Pad4(n: nat): (s: string)
    requires n < 10000
    ensures |s| == 4 && (forall i :: 0 <= i < 4 ==> IsDigit(s[i])) && DecimalValue(s) == n
  {
    var hi, lo := Pad2(n / 100), Pad2(n % 100);
    DecimalValueAppend2(hi, lo);
    hi + lo
  }

  /** The name under which `add` writes a record added at time `t`. */
  function FileName(t: UtcTime): (f: string)
    ensures |f| == 24 && f[19..] == ".toml"
  {
    Pad4(t.year) + "-" + Pad2(t.month) + "-" + Pad2(t.day) + "_"
      + Pad2(t.hour) + "-" + Pad2(t.minute) + "-" + Pad2(t.second) + ".toml"
  }

  predicate DigitsAt(f: string, lo: nat, hi: nat)
    requires lo <= hi <= |f|
  {
    forall i :: lo <= i < hi ==> IsDigit(f[i])
  }

  /** Reads a file name of the form `YYYY-MM-DD_HH-MM-SS.toml` back into the time it names. */
  function ParseFileName(f: string): (t: Option<DateTime>) {
    if && |f| == 24
       && f[4] == '-' && f[7] == '-' && f[10] == '_' && f[13] == '-' && f[16] == '-'
       && f[19..] == ".toml"
       && DigitsAt(f, 0, 4) && DigitsAt(f, 5, 7) && DigitsAt(f, 8, 10)
       && DigitsAt(f, 11, 13) && DigitsAt(f, 14, 16) && DigitsAt(f, 17, 19)
    then
      Some(DateTime(DecimalValue(f[0..4]), DecimalValue(f[5..7]), DecimalValue(f[8..10]),
                    DecimalValue(f[11..13]), DecimalValue(f[14..16]), DecimalValue(f[17..19])))
    else
      None
  }

  /** The file name carries the whole time to the second: it parses back to it. */
  lemma FileNameRoundTrip(t: UtcTime)
    ensures ParseFileName(FileName(t)) == Some(t)
  {
    var f := FileName(t);
    assert f[0..4] == Pad4(t.year);
    assert f[5..7] == Pad2(t.month);
    assert f[8..10] == Pad2(t.day);
    assert f[11..13] == Pad2(t.hour);
    assert f[14..16] == Pad2(t.minute);
    assert f[17..19] == Pad2(t.second);
  }

  /** Two adds land in the same file exactly when they happen in the same second. */
  lemma FileNameInjective(t1: UtcTime, t2: UtcTime)
    ensures FileName(t1) == FileName(t2) <==> t1 == t2
  {
    if FileName(t1) == FileName(t2) {
      FileNameRoundTrip(t1);
      FileNameRoundTrip(t2);
    }
  }

  // ---------------------------------------------------------------------------
  // Enumeration: the `map`/`collect` of `get_all`
  // ---------------------------------------------------------------------------

  /** Reading files one after the other and collecting into one `Result`: every
      record in order, or the error of the first file that is not one. */
  function Collect(entries: seq<Entry>): (r: Result<seq<Credentials>, Error>)
    ensures r.Ok? <==> forall i :: 0 <= i < |entries| ==> entries[i].Record?
    ensures r.Ok? ==> |r.value| == |entries|
                      && forall i :: 0 <= i < |entries| ==> r.value[i] == entries[i].creds
    ensures r.Err? ==> exists i :: && 0 <= i < |entries|
                                   && ReadFromPath(entries[i]) == Err(r.error)
                                   && forall k :: 0 <= k < i ==> entries[k].Record?
  {
    if entries == [] then Ok([])
    else
      var front, last := entries[..|entries| - 1], entries[|entries| - 1];
      assert forall i :: 0 <= i < |front| ==> front[i] == entries[i];
      match Collect(front)
      case Err(e) => Err(e)
      case Ok(records) =>
        match ReadFromPath(last)
        case Err(e) => Err(e)
        case Ok(c) => Ok(records + [c])
  }

  /** Reading one more file: an earlier error stands, otherwise the new file's
      error or its record appended. */
  lemma CollectAppend(entries: seq<Entry>, e: Entry)
    ensures Collect(entries + [e]) ==
              if Collect(entries).Err? then Collect(entries)
              else if !e.Record? then Err(ReadFromPath(e).error)
              else Ok(Collect(entries).value + [e.creds])
  {
    assert (entries + [e])[..|entries|] == entries;
  }

  /** The files of `files` named by `order`, in that order. */
  function EntriesAt(order: seq<string>, files: map<string, Entry>): (es: seq<Entry>)
    requires forall i :: 0 <= i < |order| ==> order[i] in files
    ensures |es| == |order| && forall i :: 0 <= i < |order| ==> es[i] == files[order[i]]
  {
    seq(|order|, i requires 0 <= i < |order| => files[order[i]])
  }

  /** `order` names distinct files of `files`. */
  predicate Visits(order: seq<string>, files: map<string, Entry>) {
    && (forall i :: 0 <= i < |order| ==> order[i] in files)
    && (forall i, j :: 0 <= i < j < |order| ==> order[i] != order[j])
  }

  lemma VisitsAppend(order: seq<string>, files: map<string, Entry>, f: string)
    requires Visits(order, files) && f in files && f !in order
    ensures Visits(order + [f], files)
  {
  }

  /** One more file read by `get_all`: the files visited so far plus `f`, and the
      collected records extended by its record, or its error. */
  lemma CollectStep(order: seq<string>, files: map<string, Entry>, f: string, records: seq<Credentials>)
    requires Visits(order, files) && f in files && f !in order
    requires Collect(EntriesAt(order, files)) == Ok(records)
    ensures Visits(order + [f], files)
    ensures Collect(EntriesAt(order + [f], files)) ==
              if files[f].Record? then Ok(records + [files[f].creds]) else Err(ReadFromPath(files[f]).error)
  {
    VisitsAppend(order, files, f);
    assert EntriesAt(order + [f], files) == EntriesAt(order, files) + [files[f]];
    CollectAppend(EntriesAt(order, files), files[f]);
  }

  /** Reading every file of the directory succeeds exactly when every file is a record. */
  lemma CollectAll(order: seq<string>, files: map<string, Entry>)
    requires Visits(order, files)
    requires forall f :: f in files ==> f in order
    ensures Collect(EntriesAt(order, files)).Ok? <==> AllRecords(files)
  {
    if Collect(EntriesAt(order, files)).Ok? {
      forall f | f in files
        ensures files[f].Record?
      {
        var i :| 0 <= i < |order| && order[i] == f;
        assert EntriesAt(order, files)[i] == files[f];
      }
    }
  }

  predicate AllRecords(files: map<string, Entry>) {
    forall f :: f in files ==> files[f].Record?
  }

  /** `e` is the error of reading some file of the directory that holds no record. */
  predicate BadFileError(files: map<string, Entry>, e: Error) {
    exists f :: f in files && !files[f].Record? && ReadFromPath(files[f]) == Err(e)
  }

  /** A bad file's error is always one of the two reading errors, and with a single
      bad file in the directory it is exactly that file's error. */
  lemma BadFileErrorOf(files: map<string, Entry>, e: Error)
    ensures BadFileError(files, e) ==> e == CredentialsFileUnreadable || e == CredentialsFileUnparsable
    ensures forall name :: name in files && !files[name].Record? && (forall f :: f in files && f != name ==> files[f].Record?) ==>
              (BadFileError(files, e) <==> ReadFromPath(files[name]) == Err(e))
  {
  }

  /** The logical names of the records in the directory. */
  function StoredNames(files: map<string, Entry>): (names: set<string>) {
    set f | f in files && files[f].Record? :: files[f].creds.userStorageName
  }

  /** No two records in the directory share a logical name. */
  predicate NamesUnique(files: map<string, Entry>) {
    forall f, g :: f in files && g in files && f != g && files[f].Record? && files[g].Record? ==>
      files[f].creds.userStorageName != files[g].creds.userStorageName
  }

  /** `iter().any(|c| c.user_storage_name == name)`. */
  predicate AnyNamed(records: seq<Credentials>, name: string) {
    exists i :: 0 <= i < |records| && records[i].userStorageName == name
  }

  /** Writing a record whose name no record holds keeps the names unique, even when
      the write replaces a file, and the new name is then present. */
  lemma AddKeepsNamesUnique(files: map<string, Entry>, f: string, c: Credentials)
    requires NamesUnique(files)
    requires c.userStorageName !in StoredNames(files)
    ensures NamesUnique(files[f := Record(c)])
    ensures c.userStorageName in StoredNames(files[f := Record(c)])
  {
    var files' := files[f := Record(c)];
    assert f in files' && files'[f].Record?;
    forall g, h | g in files' && h in files' && g != h && files'[g].Record? && files'[h].Record?
      ensures files'[g].creds.userStorageName != files'[h].creds.userStorageName
    {
      if g == f {
        assert files[h].creds.userStorageName in StoredNames(files);
      } else if h == f {
        assert files[g].creds.userStorageName in StoredNames(files);
      }
    }
  }

  /** The credentials directory as the file system shows it: missing, present but
      not listable (`read_dir` fails on it), or present with its files. */
  datatype Dir = Missing | Unlistable | Files(files: map<string, Entry>)

  /** The files of a directory, none when it cannot be listed. */
  function FilesOf(dir: Dir): (files: map<string, Entry>) {
    if dir.Files? then dir.files else map[]
  }

  /** The directory once `create_dir_all` has made a missing one. */
  function Created(dir: Dir): (d: Dir)
    ensures !d.Missing?
    ensures dir.Missing? ==> d == Files(map[])
    ensures !dir.Missing? ==> d == dir
  {
    if dir.Missing? then Files(map[]) else dir
  }

  /** Whether `add` gets past creating a missing directory. */
  predicate DirReady(dir: Dir, createFails: bool) {
    !dir.Missing? || !createFails
  }

  /** The duplicate check of `add` on the records `get_all` read, in the order it read
      them, agrees with the logical names stored in the directory. */
  lemma DuplicateIffStored(order: seq<string>, files: map<string, Entry>, records: seq<Credentials>,
                           name: string)
    requires Visits(order, files) && forall f :: f in files ==> f in order
    requires Collect(EntriesAt(order, files)) == Ok(records)
    ensures AnyNamed(records, name) <==> name in StoredNames(files)
  {
    if name in StoredNames(files) {
      var f :| f in files && files[f].Record? && files[f].creds.userStorageName == name;
      var i :| 0 <= i < |order| && order[i] == f;
      assert records[i] == files[f].creds;
    }
    if AnyNamed(records, name) {
      var i :| 0 <= i < |records| && records[i].userStorageName == name;
      assert EntriesAt(order, files)[i] == files[order[i]];
    }
  }

  // ---------------------------------------------------------------------------
  // The manager
  // ---------------------------------------------------------------------------

  class CredentialsManager {
    /** The directory at `base_path`. */
    var dir: Dir

    /** `CredentialsManager::new(base_path)`, for a base path whose directory is `dir`. */
    constructor (dir: Dir)
      ensures this.dir == dir
    {
      this.dir := dir;
    }

    /**
     * `get_all`: every file of the directory read as a record, in the order the
     * directory lists them (unspecified, so chosen freely here and returned as
     * `order`); a directory that cannot be listed, missing or not, fails the call,
     * and so does the first file that is not a record.
     */
    method GetAll() returns (r: Result<seq<Credentials>, Error>, ghost order: seq<string>)
      ensures !dir.Files? ==> r == Err(CredentialsDirUnreadable)
      ensures dir.Files? ==> Visits(order, dir.files) && r == Collect(EntriesAt(order, dir.files))
      ensures r.Ok? <==> dir.Files? && AllRecords(dir.files)
      ensures r.Ok? ==> && |r.value| == |dir.files| == |order|
                        && forall f :: f in dir.files ==> f in order
      ensures r.Err? && dir.Files? ==> r.error == CredentialsFileUnreadable || r.error == CredentialsFileUnparsable
      ensures r.Err? && dir.Files? ==> BadFileError(dir.files, r.error)
    {
      order := [];
      if !dir.Files? {
        return Err(CredentialsDirUnreadable), order;
      }
      var files := dir.files;
      var remaining := files.Keys;
      var records: seq<Credentials> := [];
      while remaining != {}
        invariant remaining <= files.Keys
        invariant Visits(order, files)
        invariant forall f :: f in order ==> f !in remaining
        invariant forall f :: f in files ==> f in remaining || f in order
        invariant |order| + |remaining| == |files|
        invariant Collect(EntriesAt(order, files)) == Ok(records)
        decreases remaining
      {
        var f :| f in remaining;
        var c := ReadFromPath(files[f]);
        CollectStep(order, files, f, records);
        order := order + [f];
        remaining := remaining - {f};
        if c.Err? {
          assert !AllRecords(files) && BadFileError(files, c.error);
          return Err(c.error), order;
        }
        records := records + [c.value];
      }
      r := Ok(records);
      CollectAll(order, files);
    }

    /**
     * `add`: create the directory if it is missing, refuse an empty logical name,
     * reload every record and refuse a logical name already held, then write the
     * record under the file name of the current second, replacing any file of
     * that name. `createFails` and `writeFails` stand for the file system refusing
     * to create the directory or to write the file.
     */
    method Add(creds: Credentials, now: UtcTime, createFails: bool, writeFails: bool)
      returns (r: Outcome<Error>)
      modifies this
      ensures !DirReady(old(dir), createFails) ==> r == Fail(CredentialsDirNotCreated) && dir == old(dir)
      ensures DirReady(old(dir), createFails) && creds.userStorageName == [] ==>
                r == Fail(EmptyUserStorageName)
      ensures DirReady(old(dir), createFails) && creds.userStorageName != [] && old(dir).Unlistable? ==>
                r == Fail(CredentialsDirUnreadable)
      ensures DirReady(old(dir), createFails) && creds.userStorageName != [] && !old(dir).Unlistable?
              && !AllRecords(FilesOf(old(dir))) ==>
                r.Fail? && BadFileError(FilesOf(old(dir)), r.error)
      ensures DirReady(old(dir), createFails) && creds.userStorageName != [] && !old(dir).Unlistable?
              && AllRecords(FilesOf(old(dir))) && creds.userStorageName in StoredNames(FilesOf(old(dir))) ==>
                r == Fail(DuplicateUserStorageName)
      ensures DirReady(old(dir), createFails) && creds.userStorageName != [] && !old(dir).Unlistable?
              && AllRecords(FilesOf(old(dir))) && creds.userStorageName !in StoredNames(FilesOf(old(dir))) ==>
                r == if writeFails then Fail(CredentialsFileNotWritten) else Pass
      ensures r.Fail? && DirReady(old(dir), createFails) ==> dir == Created(old(dir))
      ensures r.Pass? ==> dir == Files(FilesOf(old(dir))[FileName(now) := WriteToPath(creds)])
      ensures r.Pass? && NamesUnique(FilesOf(old(dir))) ==>
                NamesUnique(dir.files) && creds.userStorageName in StoredNames(dir.files)
    {
      if dir.Missing? {
        if createFails {
          return Fail(CredentialsDirNotCreated);
        }
        dir := Files(map[]);
      }

      if creds.userStorageName == [] {
        return Fail(EmptyUserStorageName);
      }

      var existing, order := GetAll();
      if existing.Err? {
        return Fail(existing.error);
      }
      var files := dir.files;
      DuplicateIffStored(order, files, existing.value, creds.userStorageName);
      if AnyNamed(existing.value, creds.userStorageName) {
        return Fail(DuplicateUserStorageName);
      }

      if writeFails {
        return Fail(CredentialsFileNotWritten);
      }
      var name := FileName(now);
      dir := Files(files[name := WriteToPath(creds)]);
      if NamesUnique(files) {
        AddKeepsNamesUnique(files, name, creds);
      }
      r := Pass;
    }
  }
}
