/**
 * `Storage` (src/storage.rs): firmware names and versions read off a bucket
 * whose keys look like `<name>/<version>/<file>`, through a listing with
 * delimiter `/` in the manner of Amazon S3 ListObjects (`delimiter`,
 * `CommonPrefixes`). The S3 client is replaced by `List`, a model of what
 * such a listing returns for the bucket's keys.
 */
module Storage {
  import opened Wrappers
  import opened Errors

  predicate IsPrefix(p: string, s: string) {
    |p| <= |s| && s[..|p|] == p
  }

  /** `str::strip_prefix`. */
  function StripPrefix(s: string, prefix: string): (r: Option<string>)
    ensures r.Some? <==> IsPrefix(prefix, s)
    ensures r.Some? ==> s == prefix + r.value
  {
    if IsPrefix(prefix, s) then
      assert s == prefix + s[|prefix|..];
      Some(s[|prefix|..])
    else None
  }

  /** `str::strip_suffix`. */
  function StripSuffix(s: string, suffix: string): (r: Option<string>)
    ensures r.Some? <==> |suffix| <= |s| && s[|s| - |suffix|..] == suffix
    ensures r.Some? ==> s == r.value + suffix
  {
    if |suffix| <= |s| && s[|s| - |suffix|..] == suffix then
      assert s == s[..|s| - |suffix|] + suffix;
      Some(s[..|s| - |suffix|])
    else None
  }

  /** `p.strip_suffix("/").unwrap_or(p)`: one trailing `/` removed if there is one. */
  function StripTrailingSlash(p: string): (r: string)
    ensures p != [] && p[|p| - 1] == '/' ==> r + "/" == p
    ensures !(p != [] && p[|p| - 1] == '/') ==> r == p
  {
    StripSuffix(p, "/").UnwrapOr(p)
  }

  // ---------------------------------------------------------------------------
  // The delimited listing (the remote side of `bucket.list(prefix, Some("/"))`)
  // ---------------------------------------------------------------------------

  /** The position of the first `/` in `s`, if any. */
  function SlashIndex(s: string): (r: Option<nat>)
    ensures r.Some? ==> r.value < |s| && s[r.value] == '/' && '/' !in s[..r.value]
    ensures r.None? ==> '/' !in s
  {
    if s == [] then None
    else if s[0] == '/' then Some(0)
    else match SlashIndex(s[1..])
      case Some(i) =>
        assert s[..i + 1] == [s[0]] + s[1..][..i];
        Some(i + 1)
      case None => None
  }

  /** The common prefix `key` rolls up into under a listing of `prefix` with
      delimiter `/`: the key up to and including the first `/` after the prefix. */
  function RollUp(key: string, prefix: string): (r: Option<string>)
    ensures r.Some? ==> && IsPrefix(prefix, r.value) && IsPrefix(r.value, key)
                        && |r.value| > |prefix| && r.value[|r.value| - 1] == '/'
                        && '/' !in r.value[|prefix|..|r.value| - 1]
  {
    if IsPrefix(prefix, key) then
      match SlashIndex(key[|prefix|..])
      case Some(i) =>
        assert key[..|prefix| + i + 1][|prefix|..|prefix| + i] == key[|prefix|..][..i];
        Some(key[..|prefix| + i + 1])
      case None => None
    else None
  }

  /** The distinct common prefixes of `keys` under `prefix`, in the order of the
      keys that first produce them (S3 lists keys, and so these, in ascending order). */
  function CommonPrefixes(keys: seq<string>, prefix: string): (r: seq<string>)
    ensures |r| <= |keys|
  {
    if keys == [] then []
    else
      var front := CommonPrefixes(keys[..|keys| - 1], prefix);
      match RollUp(keys[|keys| - 1], prefix)
      case Some(c) => if c in front then front else front + [c]
      case None => front
  }

  /** No element of `s` occurs twice. */
  predicate Distinct(s: seq<string>) {
    forall i, j :: 0 <= i < j < |s| ==> s[i] != s[j]
  }

  /** A common prefix is listed once however many keys roll up into it. */
  lemma {:induction false} CommonPrefixesDistinct(keys: seq<string>, prefix: string)
    ensures Distinct(CommonPrefixes(keys, prefix))
  {
    if keys != [] {
      var front := CommonPrefixes(keys[..|keys| - 1], prefix);
      var cps := CommonPrefixes(keys, prefix);
      CommonPrefixesDistinct(keys[..|keys| - 1], prefix);
      if cps != front {
        var c := RollUp(keys[|keys| - 1], prefix).value;
        assert cps == front + [c] && c !in front;
        forall i, j | 0 <= i < j < |cps|
          ensures cps[i] != cps[j]
        {
          assert cps[i] == front[i] && front[i] in front;
          if j < |front| {
            assert cps[j] == front[j];
          }
        }
      }
    }
  }

  /** The common prefixes are exactly the roll-ups of the keys. */
  lemma {:induction false} CommonPrefixesMembers(keys: seq<string>, prefix: string, c: string)
    ensures c in CommonPrefixes(keys, prefix) <==> exists k :: k in keys && RollUp(k, prefix) == Some(c)
  {
    if keys != [] {
      var front := keys[..|keys| - 1];
      var last := keys[|keys| - 1];
      CommonPrefixesMembers(front, prefix, c);
      assert forall k :: k in keys <==> k in front || k == last;
    }
  }

  /** One page of a listing result; of its fields only `CommonPrefixes` is used here. */
  datatype Page = Page(commonPrefixes: Option<seq<string>>)

  /** The remote bucket: its keys in listing order, or a bucket that cannot be reached. */
  datatype Bucket = Bucket(keys: seq<string>) | Unreachable

  /** `bucket.list(prefix, Some("/"))`: all common prefixes on one page, the
      `CommonPrefixes` field absent when there are none, as S3 omits the element. */
  function List(bucket: Bucket, prefix: string): (r: Result<seq<Page>, Error>)
    ensures bucket.Unreachable? <==> r.Err?
    ensures r.Ok? ==> |r.value| == 1
    ensures r.Ok? ==> (r.value[0].commonPrefixes.None? <==> CommonPrefixes(bucket.keys, prefix) == [])
    ensures r.Ok? && r.value[0].commonPrefixes.Some? ==>
              r.value[0].commonPrefixes.value == CommonPrefixes(bucket.keys, prefix)
  {
    match bucket
    case Unreachable => Err(ListingFailed)
    case Bucket(keys) =>
      var cps := CommonPrefixes(keys, prefix);
      Ok([Page(if cps == [] then None else Some(cps))])
  }

  // ---------------------------------------------------------------------------
  // The client side
  // ---------------------------------------------------------------------------

  /** Lines 35-42 of `list_common_prefixes`: the common prefixes of the first page
      of a listing response, each with one trailing `/` stripped. */
  function FirstPagePrefixes(response: Result<seq<Page>, Error>): (r: Result<seq<string>, Error>)
    ensures response.Err? ==> r == Err(response.error)
    ensures response == Ok([]) ==> r == Err(NoResponseData)
    ensures response.Ok? && response.value != [] && response.value[0].commonPrefixes.None? ==>
              r == Err(NoCommonPrefixes)
    ensures r.Ok? <==> response.Ok? && response.value != [] && response.value[0].commonPrefixes.Some?
    ensures r.Ok? ==> var cps := response.value[0].commonPrefixes.value;
                      && |r.value| == |cps|
                      && forall i :: 0 <= i < |cps| ==>
                           if cps[i] != [] && cps[i][|cps[i]| - 1] == '/' then r.value[i] + "/" == cps[i]
                           else r.value[i] == cps[i]
  {
    var pages :- response;
    if pages == [] then Err(NoResponseData)
    else match pages[0].commonPrefixes
      case None => Err(NoCommonPrefixes)
      case Some(cps) => Ok(seq(|cps|, i requires 0 <= i < |cps| => StripTrailingSlash(cps[i])))
  }

  /** Pages after the first do not matter. */
  lemma LaterPagesIgnored(first: Page, rest: seq<Page>)
    ensures FirstPagePrefixes(Ok([first] + rest)) == FirstPagePrefixes(Ok([first]))
  {
  }

  /** `list_common_prefixes(prefix)`: one listed prefix per common prefix, and an
      error for an unreachable bucket or a listing with no common prefixes. */
  function ListCommonPrefixes(bucket: Bucket, prefix: string): (r: Result<seq<string>, Error>)
    ensures bucket.Unreachable? ==> r == Err(ListingFailed)
    ensures bucket.Bucket? ==> (r.Err? <==> CommonPrefixes(bucket.keys, prefix) == [])
    ensures bucket.Bucket? && r.Err? ==> r.error == NoCommonPrefixes
    ensures r.Ok? ==> r.value != [] && |r.value| == |CommonPrefixes(bucket.keys, prefix)|
  {
    FirstPagePrefixes(List(bucket, prefix))
  }

  /** Every listed prefix is the listing prefix followed by one `/`-free segment. */
  lemma ListedSegments(keys: seq<string>, prefix: string)
    requires ListCommonPrefixes(Bucket(keys), prefix).Ok?
    ensures var ps := ListCommonPrefixes(Bucket(keys), prefix).value;
            forall i :: 0 <= i < |ps| ==> IsPrefix(prefix, ps[i]) && '/' !in ps[i][|prefix|..]
  {
    var ps := ListCommonPrefixes(Bucket(keys), prefix).value;
    var cps := CommonPrefixes(keys, prefix);
    ListedPrefixes(keys, prefix);
    forall i | 0 <= i < |ps|
      ensures IsPrefix(prefix, ps[i]) && '/' !in ps[i][|prefix|..]
    {
      CommonPrefixShape(keys, prefix, cps[i]);
      var x := cps[i][|prefix|..|cps[i]| - 1];
      assert ps[i] + "/" == prefix + x + "/";
      assert ps[i] == (ps[i] + "/")[..|ps[i]|] == (prefix + x + "/")[..|prefix + x|] == prefix + x;
      assert ps[i][|prefix|..] == x;
    }
  }

  /** `list_firmwares`: the common prefixes of the whole bucket, so no listed name
      holds a `/`. */
  function ListFirmwares(bucket: Bucket): (r: Result<seq<string>, Error>)
    ensures bucket.Unreachable? ==> r == Err(ListingFailed)
    ensures r.Err? && bucket.Bucket? ==> r.error == NoCommonPrefixes
    ensures r.Ok? ==> r.value != [] && forall i :: 0 <= i < |r.value| ==> '/' !in r.value[i]
  {
    var r := ListCommonPrefixes(bucket, "");
    if r.Ok? then
      ListedSegments(bucket.keys, "");
      assert forall i :: 0 <= i < |r.value| ==> r.value[i][0..] == r.value[i];
      r
    else r
  }

  /** `list_firmware_versions(name)`: the common prefixes under `name/`, with
      `name/` removed from the front of each that starts with it. */
  function ListFirmwareVersions(bucket: Bucket, name: string): (r: Result<seq<string>, Error>)
    ensures r.Ok? <==> ListCommonPrefixes(bucket, name + "/").Ok?
    ensures r.Err? ==> r == ListCommonPrefixes(bucket, name + "/")
    ensures r.Ok? ==> var ps := ListCommonPrefixes(bucket, name + "/").value;
                      && |r.value| == |ps|
                      && forall i :: 0 <= i < |ps| ==>
                           if IsPrefix(name + "/", ps[i]) then name + "/" + r.value[i] == ps[i]
                           else r.value[i] == ps[i]
  {
    var prefix := name + "/";
    var prefixes :- ListCommonPrefixes(bucket, prefix);
    Ok(seq(|prefixes|, i requires 0 <= i < |prefixes| => StripPrefix(prefixes[i], prefix).UnwrapOr(prefixes[i])))
  }

  // ---------------------------------------------------------------------------
  // The two-level catalog
  // ---------------------------------------------------------------------------

  /** A key `prefix + x + "/" + rest` with no `/` in `x` rolls up into `prefix + x + "/"`. */
  lemma {:induction false} SlashIndexAfter(x: string, rest: string)
    requires '/' !in x
    ensures SlashIndex(x + "/" + rest) == Some(|x|)
  {
    if x != [] {
      assert (x + "/" + rest)[1..] == x[1..] + "/" + rest;
      SlashIndexAfter(x[1..], rest);
    }
  }

  lemma RollUpOf(prefix: string, x: string, key: string)
    requires '/' !in x && IsPrefix(prefix + x + "/", key)
    ensures RollUp(key, prefix) == Some(prefix + x + "/")
  {
    var rest := key[|prefix + x + "/"|..];
    assert key == prefix + x + "/" + rest;
    assert key[|prefix|..] == x + "/" + rest;
    SlashIndexAfter(x, rest);
  }

  /** The common prefixes under `prefix` are exactly the strings `prefix + x + "/"`,
      `x` free of `/`, that begin some key. */
  lemma InCommonPrefixes(keys: seq<string>, prefix: string, x: string)
    ensures prefix + x + "/" in CommonPrefixes(keys, prefix) <==>
              '/' !in x && exists k :: k in keys && IsPrefix(prefix + x + "/", k)
  {
    var c := prefix + x + "/";
    CommonPrefixesMembers(keys, prefix, c);
    if c in CommonPrefixes(keys, prefix) {
      var k :| k in keys && RollUp(k, prefix) == Some(c);
      assert c[|prefix|..|c| - 1] == x;
    }
    if '/' !in x && exists k :: k in keys && IsPrefix(c, k) {
      var k :| k in keys && IsPrefix(c, k);
      RollUpOf(prefix, x, k);
    }
  }

  /** Every common prefix under `prefix` is `prefix + x + "/"` for an `x` free of `/`. */
  lemma CommonPrefixShape(keys: seq<string>, prefix: string, c: string)
    requires c in CommonPrefixes(keys, prefix)
    ensures |c| > |prefix| && c == prefix + c[|prefix|..|c| - 1] + "/" && '/' !in c[|prefix|..|c| - 1]
  {
    CommonPrefixesMembers(keys, prefix, c);
    var k :| k in keys && RollUp(k, prefix) == Some(c);
  }

  /** Each listed prefix is a common prefix with its trailing `/` stripped. */
  lemma ListedPrefixes(keys: seq<string>, prefix: string)
    requires ListCommonPrefixes(Bucket(keys), prefix).Ok?
    ensures var ps := ListCommonPrefixes(Bucket(keys), prefix).value;
            var cps := CommonPrefixes(keys, prefix);
            |ps| == |cps| && forall i :: 0 <= i < |ps| ==> ps[i] + "/" == cps[i]
  {
    var cps := CommonPrefixes(keys, prefix);
    forall i | 0 <= i < |cps|
      ensures cps[i] != [] && cps[i][|cps[i]| - 1] == '/'
    {
      CommonPrefixShape(keys, prefix, cps[i]);
    }
  }

  /** The firmware names are the first path segments of the keys: a name is listed
      exactly when it has no `/` and some key starts with `name/`. */
  lemma FirmwareNames(keys: seq<string>, name: string)
    requires ListFirmwares(Bucket(keys)).Ok?
    ensures name in ListFirmwares(Bucket(keys)).value <==>
              '/' !in name && exists k :: k in keys && IsPrefix(name + "/", k)
  {
    var cps := CommonPrefixes(keys, "");
    var names := ListFirmwares(Bucket(keys)).value;
    ListedPrefixes(keys, "");
    assert "" + name + "/" == name + "/";
    InCommonPrefixes(keys, "", name);
    if name in names {
      var i :| 0 <= i < |names| && names[i] == name;
      assert cps[i] == name + "/";
    }
    if name + "/" in cps {
      var i :| 0 <= i < |cps| && cps[i] == name + "/";
      assert names[i] + "/" == name + "/";
    }
  }

  /** Each listed version `v` comes from the common prefix `name/v/`. */
  lemma ListedVersions(keys: seq<string>, name: string)
    requires ListFirmwareVersions(Bucket(keys), name).Ok?
    ensures var versions := ListFirmwareVersions(Bucket(keys), name).value;
            var cps := CommonPrefixes(keys, name + "/");
            |versions| == |cps| && forall i :: 0 <= i < |cps| ==> name + "/" + versions[i] + "/" == cps[i]
  {
    var prefix := name + "/";
    var cps := CommonPrefixes(keys, prefix);
    var ps := ListCommonPrefixes(Bucket(keys), prefix).value;
    var versions := ListFirmwareVersions(Bucket(keys), name).value;
    ListedPrefixes(keys, prefix);
    forall i | 0 <= i < |cps|
      ensures prefix + versions[i] + "/" == cps[i]
    {
      CommonPrefixShape(keys, prefix, cps[i]);
      var x := cps[i][|prefix|..|cps[i]| - 1];
      assert ps[i] + "/" == prefix + x + "/";
      assert ps[i] == (ps[i] + "/")[..|ps[i]|] == (prefix + x + "/")[..|prefix + x|] == prefix + x;
      assert IsPrefix(prefix, ps[i]);
    }
  }

  /** The versions of a firmware are the second path segments of its keys: a version
      is listed exactly when it has no `/` and some key starts with `name/version/`. */
  lemma FirmwareVersions(keys: seq<string>, name: string, version: string)
    requires ListFirmwareVersions(Bucket(keys), name).Ok?
    ensures version in ListFirmwareVersions(Bucket(keys), name).value <==>
              '/' !in version && exists k :: k in keys && IsPrefix(name + "/" + version + "/", k)
  {
    var prefix := name + "/";
    var cps := CommonPrefixes(keys, prefix);
    var versions := ListFirmwareVersions(Bucket(keys), name).value;
    ListedVersions(keys, name);
    InCommonPrefixes(keys, prefix, version);
    assert version in versions ==> prefix + version + "/" in cps by {
      if version in versions {
        var i :| 0 <= i < |versions| && versions[i] == version;
        assert cps[i] == prefix + version + "/";
      }
    }
    assert prefix + version + "/" in cps ==> version in versions by {
      if prefix + version + "/" in cps {
        var i :| 0 <= i < |cps| && cps[i] == prefix + version + "/";
        FolderNameInjective(prefix, versions[i], version);
      }
    }
  }

  /** A folder `prefix + v + "/"` names one `v`. */
  lemma FolderNameInjective(prefix: string, v: string, w: string)
    requires prefix + v + "/" == prefix + w + "/"
    ensures v == w
  {
    assert v == (prefix + v + "/")[|prefix|..|prefix| + |v|];
    assert w == (prefix + w + "/")[|prefix|..|prefix| + |w|];
  }

  /** A key rolls up at the top level exactly when it holds a `/`. */
  lemma RollUpTopLevel(k: string)
    ensures RollUp(k, "").Some? <==> '/' in k
  {
    if '/' in k {
      var i := SlashIndex(k).value;
      assert k[..i + 1] == "" + k[..i] + "/";
      RollUpOf("", k[..i], k);
    }
    if RollUp(k, "").Some? {
      var c := RollUp(k, "").value;
      assert k[|c| - 1] == c[|c| - 1] == '/';
    }
  }

  /** A bucket with no key holding a `/` has no common prefixes, and listing it
      fails rather than giving an empty catalog. */
  lemma NoFoldersNoCatalog(keys: seq<string>)
    ensures ListFirmwares(Bucket(keys)) == Err(NoCommonPrefixes) <==> forall k :: k in keys ==> '/' !in k
  {
    var cps := CommonPrefixes(keys, "");
    assert ListFirmwares(Bucket(keys)) == Err(NoCommonPrefixes) <==> cps == [];
    if cps != [] {
      CommonPrefixesMembers(keys, "", cps[0]);
      var k :| k in keys && RollUp(k, "") == Some(cps[0]);
      RollUpTopLevel(k);
    }
    if exists k :: k in keys && '/' in k {
      var k :| k in keys && '/' in k;
      RollUpTopLevel(k);
      CommonPrefixesMembers(keys, "", RollUp(k, "").value);
    }
  }

  /** Listing one more key adds its common prefix unless it is already there. */
  lemma CommonPrefixesSnoc(keys: seq<string>, key: string, prefix: string)
    ensures CommonPrefixes(keys + [key], prefix) ==
              match RollUp(key, prefix)
              case Some(c) => if c in CommonPrefixes(keys, prefix) then CommonPrefixes(keys, prefix)
                              else CommonPrefixes(keys, prefix) + [c]
              case None => CommonPrefixes(keys, prefix)
  {
    assert (keys + [key])[..|keys|] == keys;
  }

  /** The keys of the catalog example: `fwA/1.0`, `fwA/2.0` and `fwB/1.0`. */
  function ExampleKeys(): (keys: seq<string>) {
    [ManifestKey("fwA", "1.0"), ManifestKey("fwA", "2.0"), ManifestKey("fwB", "1.0")]
  }

  /** The key `name/version/manifest.json`. */
  function ManifestKey(name: string, version: string): (key: string) {
    name + "/" + version + "/" + "manifest.json"
  }

  /** A key rolls up into the folder named by its first `/`-free part after `prefix`. */
  lemma RollUpInto(prefix: string, x: string, rest: string)
    requires '/' !in x
    ensures RollUp(prefix + x + "/" + rest, prefix) == Some(prefix + x + "/")
  {
    var key := prefix + x + "/" + rest;
    assert key[..|prefix + x + "/"|] == prefix + x + "/";
    RollUpOf(prefix, x, key);
  }

  /** A manifest's key rolls up into its firmware's folder at the top level... */
  lemma ManifestAtTop(name: string, version: string)
    requires '/' !in name
    ensures RollUp(ManifestKey(name, version), "") == Some(name + "/")
  {
    assert ManifestKey(name, version) == "" + name + "/" + (version + "/" + "manifest.json");
    RollUpInto("", name, version + "/" + "manifest.json");
    assert "" + name + "/" == name + "/";
  }

  /** ... and into its version's folder under the firmware's folder. */
  lemma ManifestUnderName(name: string, version: string)
    requires '/' !in version
    ensures RollUp(ManifestKey(name, version), name + "/") == Some(name + "/" + version + "/")
  {
    RollUpInto(name + "/", version, "manifest.json");
  }

  /** Listing one more key whose common prefix is new appends that prefix. */
  lemma SnocNew(keys: seq<string>, key: string, prefix: string, c: string)
    requires RollUp(key, prefix) == Some(c) && c !in CommonPrefixes(keys, prefix)
    ensures CommonPrefixes(keys + [key], prefix) == CommonPrefixes(keys, prefix) + [c]
  {
    CommonPrefixesSnoc(keys, key, prefix);
  }

  /** Listing one more key whose common prefix is already listed changes nothing. */
  lemma SnocSeen(keys: seq<string>, key: string, prefix: string, c: string)
    requires RollUp(key, prefix) == Some(c) && c in CommonPrefixes(keys, prefix)
    ensures CommonPrefixes(keys + [key], prefix) == CommonPrefixes(keys, prefix)
  {
    CommonPrefixesSnoc(keys, key, prefix);
  }

  /** Listing one more key that does not roll up changes nothing. */
  lemma SnocNone(keys: seq<string>, key: string, prefix: string)
    requires RollUp(key, prefix) == None
    ensures CommonPrefixes(keys + [key], prefix) == CommonPrefixes(keys, prefix)
  {
    CommonPrefixesSnoc(keys, key, prefix);
  }

  /** Three keys rolling up into `a`, `a` and `b`. */
  lemma CommonPrefixesAAB(keys: seq<string>, prefix: string, a: string, b: string)
    requires |keys| == 3 && a != b
    requires RollUp(keys[0], prefix) == Some(a) && RollUp(keys[1], prefix) == Some(a)
    requires RollUp(keys[2], prefix) == Some(b)
    ensures CommonPrefixes(keys, prefix) == [a, b]
  {
    assert keys[..1] == [] + [keys[0]];
    SnocNew([], keys[0], prefix, a);
    assert keys[..2] == keys[..1] + [keys[1]];
    SnocSeen(keys[..1], keys[1], prefix, a);
    assert keys == keys[..2] + [keys[2]];
    SnocNew(keys[..2], keys[2], prefix, b);
  }

  /** Three keys rolling up into `a`, `b` and nothing. */
  lemma CommonPrefixesABNone(keys: seq<string>, prefix: string, a: string, b: string)
    requires |keys| == 3 && a != b
    requires RollUp(keys[0], prefix) == Some(a) && RollUp(keys[1], prefix) == Some(b)
    requires RollUp(keys[2], prefix) == None
    ensures CommonPrefixes(keys, prefix) == [a, b]
  {
    assert keys[..1] == [] + [keys[0]];
    SnocNew([], keys[0], prefix, a);
    assert keys[..2] == keys[..1] + [keys[1]];
    SnocNew(keys[..1], keys[1], prefix, b);
    assert keys == keys[..2] + [keys[2]];
    SnocNone(keys[..2], keys[2], prefix);
  }

  lemma ExampleTopLevel(keys: seq<string>)
    requires keys == ExampleKeys()
    ensures CommonPrefixes(keys, "") == ["fwA/", "fwB/"]
  {
    assert '/' !in "fwA" && '/' !in "fwB";
    ManifestAtTop("fwA", "1.0");
    ManifestAtTop("fwA", "2.0");
    ManifestAtTop("fwB", "1.0");
    assert "fwA" + "/" == "fwA/" && "fwB" + "/" == "fwB/";
    CommonPrefixesAAB(keys, "", "fwA/", "fwB/");
  }

  lemma ExampleOutsideFwA(keys: seq<string>)
    requires keys == ExampleKeys()
    ensures RollUp(keys[2], "fwA/") == None
  {
    assert keys[2][..4][2] == 'B';
  }

  lemma ExampleUnderFwA(keys: seq<string>)
    requires keys == ExampleKeys()
    ensures CommonPrefixes(keys, "fwA/") == ["fwA/1.0/", "fwA/2.0/"]
  {
    assert '/' !in "1.0" && '/' !in "2.0";
    ManifestUnderName("fwA", "1.0");
    ManifestUnderName("fwA", "2.0");
    assert "fwA" + "/" == "fwA/";
    assert "fwA/" + "1.0" + "/" == "fwA/1.0/" && "fwA/" + "2.0" + "/" == "fwA/2.0/";
    ExampleOutsideFwA(keys);
    CommonPrefixesABNone(keys, "fwA/", "fwA/1.0/", "fwA/2.0/");
  }

  /** The listed prefixes are the common prefixes without their trailing `/`. */
  lemma ListedFromPrefixes(keys: seq<string>, prefix: string, cps: seq<string>, ps: seq<string>)
    requires CommonPrefixes(keys, prefix) == cps && cps != []
    requires |ps| == |cps| && forall i :: 0 <= i < |cps| ==> cps[i] == ps[i] + "/"
    ensures ListCommonPrefixes(Bucket(keys), prefix) == Ok(ps)
  {
    var r := ListCommonPrefixes(Bucket(keys), prefix).value;
    forall i | 0 <= i < |cps|
      ensures r[i] == ps[i]
    {
      assert r[i] == (r[i] + "/")[..|r[i]|];
      assert ps[i] == (ps[i] + "/")[..|ps[i]|];
    }
    assert r == ps;
  }

  /** A bucket whose top-level common prefixes are `fwA/` and `fwB/` lists the
      firmware names `fwA` and `fwB`. */
  lemma NamesOfTwoFolders(keys: seq<string>)
    requires CommonPrefixes(keys, "") == ["fwA/", "fwB/"]
    ensures ListFirmwares(Bucket(keys)) == Ok(["fwA", "fwB"])
  {
    var cps, names := ["fwA/", "fwB/"], ["fwA", "fwB"];
    assert forall i :: 0 <= i < |cps| ==> cps[i] == names[i] + "/" by {
      assert "fwA" + "/" == "fwA/" && "fwB" + "/" == "fwB/";
    }
    ListedFromPrefixes(keys, "", cps, names);
  }

  /** Listing the example bucket names `fwA` and `fwB`. */
  lemma ExampleNames(keys: seq<string>)
    requires keys == ExampleKeys()
    ensures ListFirmwares(Bucket(keys)) == Ok(["fwA", "fwB"])
  {
    ExampleTopLevel(keys);
    NamesOfTwoFolders(keys);
  }

  /** Versions are the listed prefixes with `name/` taken off the front. */
  lemma VersionsFromPrefixes(bucket: Bucket, name: string, ps: seq<string>, versions: seq<string>)
    requires ListCommonPrefixes(bucket, name + "/") == Ok(ps)
    requires |ps| == |versions| && forall i :: 0 <= i < |ps| ==> ps[i] == name + "/" + versions[i]
    ensures ListFirmwareVersions(bucket, name) == Ok(versions)
  {
    var r := ListFirmwareVersions(bucket, name).value;
    forall i | 0 <= i < |ps|
      ensures r[i] == versions[i]
    {
      assert IsPrefix(name + "/", ps[i]);
      assert r[i] == (name + "/" + r[i])[|name + "/"|..];
    }
    assert r == versions;
  }

  /** A bucket whose common prefixes under `fwA/` are `fwA/1.0/` and `fwA/2.0/`
      lists the prefixes `fwA/1.0` and `fwA/2.0` there. */
  lemma PrefixesOfTwoFolders(keys: seq<string>)
    requires CommonPrefixes(keys, "fwA/") == ["fwA/1.0/", "fwA/2.0/"]
    ensures ListCommonPrefixes(Bucket(keys), "fwA/") == Ok(["fwA/1.0", "fwA/2.0"])
  {
    var cps, ps := ["fwA/1.0/", "fwA/2.0/"], ["fwA/1.0", "fwA/2.0"];
    assert cps[0] == ps[0] + "/" && cps[1] == ps[1] + "/";
    ListedFromPrefixes(keys, "fwA/", cps, ps);
  }

  /** ... and so the versions `1.0` and `2.0` of `fwA`. */
  lemma VersionsOfTwoFolders(keys: seq<string>)
    requires CommonPrefixes(keys, "fwA/") == ["fwA/1.0/", "fwA/2.0/"]
    ensures ListFirmwareVersions(Bucket(keys), "fwA") == Ok(["1.0", "2.0"])
  {
    var ps, versions := ["fwA/1.0", "fwA/2.0"], ["1.0", "2.0"];
    PrefixesOfTwoFolders(keys);
    assert "fwA" + "/" == "fwA/";
    assert ps[0] == "fwA" + "/" + versions[0] && ps[1] == "fwA" + "/" + versions[1];
    VersionsFromPrefixes(Bucket(keys), "fwA", ps, versions);
  }

  /** Listing the versions of `fwA` in the example bucket gives `1.0` and `2.0`. */
  lemma ExampleVersions(keys: seq<string>)
    requires keys == ExampleKeys()
    ensures ListFirmwareVersions(Bucket(keys), "fwA") == Ok(["1.0", "2.0"])
  {
    ExampleUnderFwA(keys);
    VersionsOfTwoFolders(keys);
  }
}
