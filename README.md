# quick-flash, modelled in Dafny

quick-flash is a command-line tool that flashes centrally hosted firmware onto a
microcontroller through a debug probe. It keeps cloud-storage credentials in a
directory of TOML files and reads a catalog of firmware names and versions off an
S3-compatible (Cloudflare R2) bucket whose keys look like `<name>/<version>/<file>`.
It then picks a probe and flashes the chosen image.

This project models, in Dafny, the parts of the program that decide what happens:

- **`Utils`** (`utils.dfy`, src/utils.rs): `read_line` trims a line of standard
  input and refuses an empty result. Rust's `str::trim` is modelled with the
  Unicode White_Space set.
- **`Text`** (`text.dfy`): decimal digits and the number a string of them
  denotes, shared by the file names and the printed counts, and a lemma that reads
  the parts of a concatenated string back.
- **`Credentials`** (`credentials.dfy`, src/credentials.rs): the credential record
  and `new_r2`. A file's TOML text is abstracted as an `Entry`: a written record
  reads back as itself. `get_credentials_from_command_line` is a function of the
  lines typed on standard input.
- **`CredentialsManager`** (`credentials_manager.dfy`, src/credentials_manager.rs):
  a class whose field is the credentials directory: missing, present but
  impossible to list, or a map from file name to file.
  - `GetAll` reads every file. The directory order is unspecified, so the method
    picks files in an arbitrary order and returns that order as a ghost result.
  - `Add` checks the name, refuses a duplicate, and writes the record under the
    name `%Y-%m-%d_%H-%M-%S.toml`. That name is built and parsed back digit by digit.
- **`Storage`** (`storage.dfy`, src/storage.rs): the catalog.
  - The bucket is its sequence of keys. `List` models what an S3 listing with
    delimiter `/` returns for them: the distinct `CommonPrefixes`, and no
    `CommonPrefixes` element at all when there are none.
  - `list_common_prefixes`, `list_firmwares` and `list_firmware_versions` are
    modelled over that listing.
- **`Probes`** (`probes.dfy`, src/lib.rs `get_probes`, and the probe handling of
  src/main.rs): the attached probes are an input. The module covers choosing a
  probe by serial number and the `{:04X}` line printed for each probe.
- **`Cli`** (`cli.dfy`, src/main.rs): one run of `main`, as the method `Run`.
  - The credentials directory it updates is a `CredentialsManager`.
  - Everything else the run meets outside the program is an `Environment` value:
    the probes, the file-system failures, standard input, the clock and the bucket.
  - A run ends in one of four ways: a listing printed before `exit(0)`, an error,
    the `expect` panic, or the firmware and probe it would go on to flash.

Behaviour worth knowing; the model follows the code:

- A credentials file is named after the second of the `add` alone, with no content
  hash. Two adds in the same second therefore write the same file, and the second
  replaces the first (`FileNameInjective`, `Add`).
- There is no operation that removes a stored credential.
- `list_firmwares` and `list_firmware_versions` return plain strings read off the
  common prefixes. They do not read manifests, timestamps or a "latest" version.
- A listing with no common prefixes is an error, not an empty list. As a result,
  the "No firmware found in the Bucket" check of `main` (src/main.rs:115-117) can
  never fire (`Storage.ListFirmwares`, `Cli.SelectTarget`).

## Model

| member | source | states |
|---|---|---|
| Utils.TrimStart | src/utils.rs:5 | the result is a suffix of the input, only whitespace was removed, and it does not start with whitespace |
| Utils.TrimEnd | src/utils.rs:5 | the result is a prefix of the input, only whitespace was removed, and it does not end with whitespace |
| Utils.Trim | src/utils.rs:5 | the trimmed string has no whitespace at either end and is no longer than the input |
| Utils.TrimIsSlice | src/utils.rs:5 | `trim` returns a slice of its input with whitespace on both sides and none at its own ends |
| Utils.TrimEmptyIff | src/utils.rs:5-6 | the trimmed line is empty exactly when the input is all whitespace |
| Utils.TrimOfTrimmed | src/utils.rs:5 | a string with no whitespace at either end is its own trim |
| Utils.TrimIdempotent | src/utils.rs:5 | trimming twice is trimming once |
| Utils.ReadLine | src/utils.rs:2-14 | a failed read is an error; an all-whitespace line is `InvalidInput`; otherwise the result is non-empty, trimmed, and a slice of the line with whitespace around it |
| Utils.ReadLineIdempotent | src/utils.rs:5-13 | reading back a line that `read_line` accepted yields it unchanged |
| Credentials.NewR2 | src/credentials.rs:25-41 | the record has backend R2, the given fields, and the clock reading as its timestamp |
| Credentials.ReadFromPath | src/credentials.rs:43-53 | a file yields its record, or the read error or the parse error |
| Credentials.WriteToPath | src/credentials.rs:55-59 | a written file reads back as the same record (round trip) |
| Credentials.Read | src/credentials.rs:66-77 | the i-th `read_line` gives the outcome for the i-th typed line; past the end of input it is `InvalidInput` |
| Credentials.FromCommandLine | src/credentials.rs:62-89 | success exactly when the first four reads succeed; otherwise the error of the first read that failed; the fields come from lines 1-4 in order; the name is line 5, or the bucket name when line 5 fails |
| Credentials.BuiltNameNonEmpty | src/credentials.rs:62-89 | a record built from standard input always has a non-empty, trimmed name |
| CredentialsManager.Pad2 | src/credentials_manager.rs:46 | two decimal digits denoting the number |
| CredentialsManager.Pad4 | src/credentials_manager.rs:46 | four decimal digits denoting the year |
| CredentialsManager.FileName | src/credentials_manager.rs:46 | the file name is 24 characters long and ends in `.toml` |
| CredentialsManager.FileNameRoundTrip | src/credentials_manager.rs:46 | the file name parses back to the time it was made from |
| CredentialsManager.FileNameInjective | src/credentials_manager.rs:46-48 | two adds use the same file exactly when they happen in the same second |
| CredentialsManager.Collect | src/credentials_manager.rs:20-24 | collecting reads succeeds exactly when every file is a record, giving the records in order; otherwise it gives the error of the first file that is not a record |
| CredentialsManager.CollectAppend | src/credentials_manager.rs:20-24 | reading one more file keeps an earlier error, or adds that file's error or record |
| CredentialsManager.CollectAll | src/credentials_manager.rs:16-25 | reading all files in any order succeeds exactly when every file is a record |
| CredentialsManager.CollectStep | src/credentials_manager.rs:20-24 | reading one more, not yet visited file adds its record, or ends with its read or parse error |
| CredentialsManager.DuplicateIffStored | src/credentials_manager.rs:38-44 | the `any` check over the records read finds a logical name exactly when a stored file holds it |
| CredentialsManager.Created | src/credentials_manager.rs:28-31 | a missing directory becomes an empty one; a directory that exists is left as it is |
| CredentialsManager.AddKeepsNamesUnique | src/credentials_manager.rs:37-48 | writing a record whose name is not stored keeps names unique, even when it replaces a file, and the name is then stored |
| CredentialsManager.CredentialsManager.constructor | src/credentials_manager.rs:12-14 | the manager is over the given directory |
| CredentialsManager.CredentialsManager.GetAll | src/credentials_manager.rs:16-25 | a missing directory, or one that cannot be listed, is `CredentialsDirUnreadable`; otherwise every file is visited once, and the result is success exactly when every file is a record (one record per file, in visiting order), else the read or parse error of a file that holds no record |
| CredentialsManager.BadFileErrorOf | src/credentials_manager.rs:20-24 | the error reported for a bad file is a read or a parse error; with a single bad file in the directory it is that file's error |
| CredentialsManager.CredentialsManager.Add | src/credentials_manager.rs:27-50 | a missing directory that cannot be created fails and changes nothing; otherwise it creates a missing directory, then refuses an empty name, a directory that cannot be listed, a file that holds no record (with that file's read or parse error), a duplicate name and a failed write, leaving the directory as created; on success writes exactly one file, named after the time, and keeps names unique |
| Storage.StripPrefix | src/storage.rs:55 | `strip_prefix`: some result exactly when the prefix is there, and prefix plus result is the input |
| Storage.StripSuffix | src/storage.rs:41 | `strip_suffix`: some result exactly when the suffix is there, and result plus suffix is the input |
| Storage.StripTrailingSlash | src/storage.rs:41 | one trailing `/` removed when there is one, the string unchanged otherwise |
| Storage.SlashIndex | src/storage.rs:34 | the position of the first `/`, or none when there is no `/` |
| Storage.RollUp | src/storage.rs:34 | a key's common prefix extends the listing prefix, starts the key, and ends at the first `/` after the listing prefix |
| Storage.CommonPrefixes | src/storage.rs:34 | each key contributes at most one common prefix |
| Storage.CommonPrefixesDistinct | src/storage.rs:34 | each common prefix is listed once |
| Storage.CommonPrefixesMembers | src/storage.rs:34 | the common prefixes are exactly the roll-ups of the keys |
| Storage.List | src/storage.rs:34 | an unreachable bucket fails; otherwise there is one page, whose `CommonPrefixes` are absent exactly when there are none |
| Storage.FirstPagePrefixes | src/storage.rs:32-42 | listing error, no page and missing `CommonPrefixes` each give their error; otherwise the first page's prefixes, each with one trailing `/` stripped |
| Storage.LaterPagesIgnored | src/storage.rs:35-36 | pages after the first do not change the result |
| Storage.ListCommonPrefixes | src/storage.rs:31-43 | an unreachable bucket is a listing error; a bucket with no common prefixes gives "no common prefixes"; otherwise one listed prefix per common prefix, and never none |
| Storage.ListedSegments | src/storage.rs:31-43 | each listed prefix is the listing prefix followed by one segment without `/` |
| Storage.ListFirmwares | src/storage.rs:45-47 | the listing's errors, or a non-empty list of names none of which contains `/` |
| Storage.ListFirmwareVersions | src/storage.rs:49-57 | the common prefixes under `name/`, with `name/` removed from each, or the listing's error |
| Storage.ListedPrefixes | src/storage.rs:31-43 | each listed prefix plus `/` is the common prefix at the same position |
| Storage.InCommonPrefixes | src/storage.rs:34 | `prefix + x + "/"` is a common prefix exactly when `x` has no `/` and some key starts with it |
| Storage.CommonPrefixShape | src/storage.rs:34 | every common prefix is the listing prefix, a segment without `/`, and a `/` |
| Storage.FirmwareNames | src/storage.rs:45-47 | a name is listed exactly when it has no `/` and some key starts with `name/` |
| Storage.ListedVersions | src/storage.rs:49-57 | each listed version `v` is the one from the common prefix `name/v/` at the same position |
| Storage.FirmwareVersions | src/storage.rs:49-57 | a version is listed exactly when it has no `/` and some key starts with `name/version/` |
| Storage.RollUpTopLevel | src/storage.rs:46 | a key rolls up at the top level exactly when it contains a `/` |
| Storage.NoFoldersNoCatalog | src/storage.rs:31-47 | listing the firmware names fails with "no common prefixes" exactly when no key contains a `/` |
| Storage.CommonPrefixesSnoc | src/storage.rs:34 | one more key adds its common prefix unless it is already listed |
| Storage.ExampleNames | src/storage.rs:45-47 | the bucket `fwA/1.0/..`, `fwA/2.0/..`, `fwB/1.0/..` lists the names `fwA`, `fwB` |
| Storage.ExampleVersions | src/storage.rs:49-57 | the same bucket lists the versions `1.0`, `2.0` of `fwA`, in key order |
| Probes.GetProbes | src/lib.rs:51-58 | the attached probes, and an error exactly when there are none |
| Probes.FindProbeFrom | src/main.rs:209-212 | the search from a position stops at the first probe that has the serial number or has none, or ends past every probe |
| Probes.FindProbe | src/main.rs:209-212 | the first probe with the requested serial number; a probe without a serial number met first is where `expect` panics; not found only when every probe has another serial number |
| Probes.FoundWhenAllHaveSerials | src/main.rs:209-212 | when every probe has a serial number, a matching probe is found at or before any probe that matches |
| Probes.HexDigit | src/main.rs:58 | an upper-case hexadecimal digit denoting the value |
| Probes.Hex4 | src/main.rs:58-60 | `{:04X}`: four upper-case hexadecimal digits denoting the id |
| Probes.Hex4Injective | src/main.rs:58-60 | distinct ids print differently |
| Probes.ProbeLineFields | src/main.rs:57-63 | the vendor id, product id, serial number (empty when absent) and identifier can be read back off a probe's line |
| Cli.Decimal | src/main.rs:52-54 | a count prints as decimal digits with no leading zero, denoting the count |
| Cli.DecimalInjective | src/main.rs:52-54 | distinct counts print differently |
| Cli.Plural | src/main.rs:54 | the ending is empty exactly for a count of one, and `s` otherwise |
| Cli.ProbesHeader | src/main.rs:51-55 | reads as its text, the probe count in decimal, `available debug probe`, an `s` exactly when the count is not one, and `:` |
| Cli.NamesHeader | src/main.rs:121-125 | reads as `Listing `, the name count in decimal, `available firmware name`, an `s` exactly when the count is not one, and `:` |
| Cli.VersionsHeader | src/main.rs:165-170 | reads as `Listing `, the version count in decimal, `version`, an `s` exactly when the count is not one, and the firmware name in quotes |
| Cli.CountedReadsBack | src/main.rs:121-125 | a header (here and at lines 51-55 and 165-170) holds its text, then the count, then its noun |
| Cli.CountedPlural | src/main.rs:121-125 | the noun (here and at lines 54 and 168) takes an `s` exactly when the count is not 1 |
| Cli.ListItems | src/main.rs:119-139 | the listing (here and at lines 164-183) is the header, then one `  - item` line per item, in order |
| Cli.ListProbes | src/main.rs:51-64 | the probe listing is the header with the probe count, then one line per probe, in order |
| Cli.SelectTarget | src/main.rs:108-214 | every branch: name listing, missing or unknown name, version listing, `--list` misuse, missing or unknown version, no probes, probe by serial or the first probe; it flashes exactly when a listed name and a listed version are given without `--list` and a probe is found; what it flashes has keys under `name/version/` in the bucket, on an attached probe with the requested serial; the empty-catalog failure never happens, since a listing that succeeds is never empty |
| Cli.SingleRecord | src/main.rs:99-103 | a directory read in full into one record holds just that record's file |
| Cli.Reload | src/main.rs:96 | reloading after the first save gives back the record just written |
| Cli.SaveFirst | src/main.rs:89-97 | with no saved credentials: a read error, a write error (directory unchanged), or the new record saved under the time's file name |
| Cli.LoadCredentials | src/main.rs:84-103 | a directory that cannot be listed fails loading, and so does a file that holds no record, with that file's read or parse error; multiple records fail; a single record is used as it is; an empty directory is filled from standard input; on success the directory holds exactly the returned record |
| Cli.RunFromCredentials | src/main.rs:84-214 | from the credentials stage on, every outcome as `FromCredentials` spells out, a file that holds no record ending the run with that file's read or parse error; a flash needs exactly one stored record and a listed name and version |
| Cli.Run | src/main.rs:46-214 | `--list-probes` prints the probes and touches nothing; failing to resolve or make the configuration directory touches nothing; once the credentials directory is made, the cache directory, cache clearing, credentials, storage and target selection follow, each failure ending the run, a bad credentials file with its own read or parse error |

## Left out

- I/O is replaced by inputs. The lines read from standard input, the credentials
  directory (missing, impossible to list, or its files), the bucket's keys, the
  attached probes, and the success or failure of the other file-system and network
  steps are all parameters.
- `CredentialsManager.CredentialsManager.GetAll`: a directory entry that fails to
  read (`entry?`, src/credentials_manager.rs:21) is not modelled apart from a file
  that fails to read. A directory that can be listed yields each of its files.
- Messages printed to standard error (`eprintln!`) and the process exit are not
  modelled. A listing's lines are returned in `Exit`.
- Clock readings are parameters: the epoch seconds in a record, and the broken-down
  UTC time in a file name. Years outside 0 to 9999, which chrono prints with a
  sign, are not modelled.
- TOML serialisation is not modelled. A file holds a record, or is unreadable, or
  is unparsable. A record written by `write_to_path` reads back equal, as it does
  in the source.
- `CredentialsManager.CredentialsManager.Add`: a failed write leaves the directory
  unchanged. A partial write is not modelled.
- The S3 client is not modelled: `Storage::new` (src/storage.rs:10-29), request
  signing, and the HTTP listing call (src/storage.rs:34). `List` returns what such a listing returns
  for the bucket's keys: one page holding every common prefix. Pagination,
  truncation and object metadata are left out. `Storage::new` failing is a
  boolean in `Environment`.
- `--dates` is accepted but ignored. main.rs prints modification times from a
  `Firmware` type with `name` and `last_modified` fields, but src/storage.rs
  returns plain strings and defines no such type. The dates, and the "not a
  timestamp" error, are therefore not modelled.
- Downloading and caching the firmware and flashing it are not modelled: the
  `download_firmware` call (src/main.rs:217-223, not defined in src/storage.rs),
  `Probe::open`, and `flash_firmware` (src/lib.rs:60 on). The run stops at the
  `Flash` outcome that names what would be flashed.
- `BaseDirs` (src/lib.rs:16-49) is reduced to its effects. Resolving the
  directories or making the configuration directory can fail, and the credentials
  directory is then untouched. Otherwise the credentials directory exists
  (`Created`), and making the cache directory can still fail. Clearing the cache
  either fails or has no effect the model can see.
- Concurrency is not modelled: another process writing the credentials directory
  during a run. With it gone, the reload after the first save
  (src/main.rs:96) cannot fail.
- src/config.rs is not part of this model.
