/**
 * The credential record of src/credentials.rs, its construction from five
 * lines of standard input, and the file a record is stored in.
 */
module Credentials {
  import opened Wrappers
  import opened Errors
  import opened Utils

  /** Rust's `i64`: the type of `Utc::now().timestamp()`. */
  newtype I64 = x: int | -0x8000_0000_0000_0000 <= x < 0x8000_0000_0000_0000

  datatype StorageType = R2

  datatype Credentials = Credentials(
    userStorageName: string,
    storageType: StorageType,
    storageName: string,
    storageAccountId: string,
    storageAccessKey: string,
    storageSecretKey: string,
    timestamp: I64)

  /** `Credentials::new_r2`. The clock reading `Utc::now().timestamp()` is the parameter `now`. */
  function NewR2(userStorageName: string, storageName: string, storageAccountId: string,
                 storageAccessKey: string, storageSecretKey: string, now: I64): (c: Credentials)
    ensures c.storageType == R2
    ensures c.userStorageName == userStorageName && c.storageName == storageName
    ensures c.storageAccountId == storageAccountId && c.storageAccessKey == storageAccessKey
    ensures c.storageSecretKey == storageSecretKey && c.timestamp == now
  {
    Credentials(userStorageName, R2, storageName, storageAccountId, storageAccessKey,
                storageSecretKey, now)
  }

  /**
   * A file in the credentials directory. The TOML text is not modelled: a file
   * written by `write_to_path` is `Record(c)` and reads back as `c`; a file that
   * cannot be read, or whose text is not a valid record, is one of the other two.
   */
  datatype Entry = Record(creds: Credentials) | Unreadable | Unparsable

  /** `read_from_path`: the record a file holds, or the reason it holds none. */
  function ReadFromPath(e: Entry): (r: Result<Credentials, Error>)
    ensures r.Ok? <==> e.Record?
    ensures r.Ok? ==> r.value == e.creds
    ensures e.Unreadable? ==> r == Err(CredentialsFileUnreadable)
    ensures e.Unparsable? ==> r == Err(CredentialsFileUnparsable)
  {
    match e
    case Record(c) => Ok(c)
    case Unreadable => Err(CredentialsFileUnreadable)
    case Unparsable => Err(CredentialsFileUnparsable)
  }

  /** `write_to_path` when the write succeeds: the file it leaves behind. */
  function WriteToPath(c: Credentials): (e: Entry)
    ensures ReadFromPath(e) == Ok(c)
  {
    Record(c)
  }

  /** The outcome of the `i`-th call to `read_line`. Past the last line standard
      input is at its end, where `read_line` reads the empty string and refuses it. */
  function Read(lines: seq<LineInput>, i: nat): (r: Result<string, Error>)
    ensures i < |lines| ==> r == ReadLine(lines[i])
    ensures i >= |lines| ==> r == Err(InvalidInput)
  {
    if i < |lines| then ReadLine(lines[i]) else ReadLine(Line(""))
  }

  /**
   * `get_credentials_from_command_line`: bucket name, account id, access key and
   * secret key are read in that order and each must be non-empty; the fifth,
   * optional line names the storage and defaults to the bucket name. Nothing is
   * written anywhere.
   */
  function FromCommandLine(lines: seq<LineInput>, now: I64): (r: Result<Credentials, Error>)
    ensures r.Ok? <==> Read(lines, 0).Ok? && Read(lines, 1).Ok? && Read(lines, 2).Ok? && Read(lines, 3).Ok?
    ensures Read(lines, 0).Err? ==> r == Err(Read(lines, 0).error)
    ensures Read(lines, 0).Ok? && Read(lines, 1).Err? ==> r == Err(Read(lines, 1).error)
    ensures Read(lines, 0).Ok? && Read(lines, 1).Ok? && Read(lines, 2).Err? ==> r == Err(Read(lines, 2).error)
    ensures Read(lines, 0).Ok? && Read(lines, 1).Ok? && Read(lines, 2).Ok? && Read(lines, 3).Err? ==>
              r == Err(Read(lines, 3).error)
    ensures r.Ok? ==> && r.value.storageType == R2
                      && r.value.timestamp == now
                      && r.value.storageName == Read(lines, 0).value
                      && r.value.storageAccountId == Read(lines, 1).value
                      && r.value.storageAccessKey == Read(lines, 2).value
                      && r.value.storageSecretKey == Read(lines, 3).value
    ensures r.Ok? ==> r.value.userStorageName ==
                        if Read(lines, 4).Ok? then Read(lines, 4).value else r.value.storageName
  {
    var storageName :- Read(lines, 0);
    var storageAccountId :- Read(lines, 1);
    var storageAccessKey :- Read(lines, 2);
    var storageSecretKey :- Read(lines, 3);
    var userStorageName := Read(lines, 4).UnwrapOr(storageName);
    Ok(NewR2(userStorageName, storageName, storageAccountId, storageAccessKey,
             storageSecretKey, now))
  }

  /** A record built from standard input always has a non-empty, trimmed logical
      name: either the fifth line succeeded, or it falls back to the bucket name,
      which `read_line` already refused to leave empty. */
  lemma BuiltNameNonEmpty(lines: seq<LineInput>, now: I64)
    requires FromCommandLine(lines, now).Ok?
    ensures FromCommandLine(lines, now).value.userStorageName != []
    ensures Trimmed(FromCommandLine(lines, now).value.userStorageName)
  {
    var c := FromCommandLine(lines, now).value;
    if Read(lines, 4).Ok? {
      assert c.userStorageName == Read(lines, 4).value;
    } else {
      assert c.userStorageName == Read(lines, 0).value;
    }
  }
}
