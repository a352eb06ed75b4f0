/**
 * Debug probes: `get_probes` (src/lib.rs) and how src/main.rs shows and picks
 * one. Which probes are attached is an input, since enumerating them is a call
 * into probe-rs.
 */
module Probes {
  import opened Wrappers
  import opened Text

  /** Rust's `u16`: the type of a USB vendor or product id. */
  newtype U16 = x: int | 0 <= x < 0x1_0000

  /** The fields of probe-rs' `DebugProbeInfo` that the program reads. */
  datatype ProbeInfo = ProbeInfo(vendorId: U16, productId: U16, serialNumber: Option<string>, identifier: string)

  /** The one way `get_probes` fails. */
  datatype ProbeError = NoDebugProbes

  /** `get_probes`: the attached probes, never an empty list. */
  function GetProbes(attached: seq<ProbeInfo>): (r: Result<seq<ProbeInfo>, ProbeError>)
    ensures r.Ok? <==> attached != []
    ensures r.Ok? ==> r.value == attached
    ensures r.Err? ==> r.error == NoDebugProbes
  {
    if attached == [] then Err(NoDebugProbes) else Ok(attached)
  }

  // ---------------------------------------------------------------------------
  // Picking a probe by serial number
  // ---------------------------------------------------------------------------

  /** Where the search for a serial number stops: at the matching probe, at a
      probe without a serial number (where `expect` panics), or past the end. */
  datatype Search = Found(index: nat) | MissingSerial(index: nat) | NotFound

  /** Every probe before `k` has a serial number, and none of them is `serial`. */
  predicate OtherSerialsBefore(probes: seq<ProbeInfo>, serial: string, k: nat)
    requires k <= |probes|
  {
    forall j :: 0 <= j < k ==> probes[j].serialNumber.Some? && probes[j].serialNumber.value != serial
  }

  /** The search from position `k` on, the probes before `k` already passed over. */
  function FindProbeFrom(probes: seq<ProbeInfo>, serial: string, k: nat): (r: Search)
    requires k <= |probes| && OtherSerialsBefore(probes, serial, k)
    ensures r.Found? ==> && k <= r.index < |probes| && probes[r.index].serialNumber == Some(serial)
                         && OtherSerialsBefore(probes, serial, r.index)
    ensures r.MissingSerial? ==> && k <= r.index < |probes| && probes[r.index].serialNumber.None?
                                 && OtherSerialsBefore(probes, serial, r.index)
    ensures r.NotFound? ==> OtherSerialsBefore(probes, serial, |probes|)
    decreases |probes| - k
  {
    if k == |probes| then NotFound
    else match probes[k].serialNumber
      case None => MissingSerial(k)
      case Some(s) => if s == serial then Found(k) else FindProbeFrom(probes, serial, k + 1)
  }

  /** `probes.iter().find(|probe| probe.serial_number.as_ref().expect(..) == p)`:
      the first probe whose serial number is `serial`, unless a probe without a
      serial number comes first. */
  function FindProbe(probes: seq<ProbeInfo>, serial: string): (r: Search)
    ensures r.Found? ==> && r.index < |probes| && probes[r.index].serialNumber == Some(serial)
                         && OtherSerialsBefore(probes, serial, r.index)
    ensures r.MissingSerial? ==> && r.index < |probes| && probes[r.index].serialNumber.None?
                                 && OtherSerialsBefore(probes, serial, r.index)
    ensures r.NotFound? ==> OtherSerialsBefore(probes, serial, |probes|)
  {
    FindProbeFrom(probes, serial, 0)
  }

  /** A probe whose serial number is `serial` is found whenever every probe has a
      serial number. */
  lemma FoundWhenAllHaveSerials(probes: seq<ProbeInfo>, serial: string, i: nat)
    requires forall j :: 0 <= j < |probes| ==> probes[j].serialNumber.Some?
    requires i < |probes| && probes[i].serialNumber == Some(serial)
    ensures FindProbe(probes, serial).Found?
    ensures FindProbe(probes, serial).index <= i
  {
  }

  // ---------------------------------------------------------------------------
  // `{:04X}`: four upper-case hexadecimal digits
  // ---------------------------------------------------------------------------

  predicate IsHexDigit(c: char) {
    '0' <= c <= '9' || 'A' <= c <= 'F'
  }

  function HexDigitValue(c: char): (v: nat)
    requires IsHexDigit(c)
  {
    if c <= '9' then c as int - '0' as int else c as int - 'A' as int + 10
  }

  function HexDigit(d: nat): (c: char)
    requires d < 16
    ensures IsHexDigit(c) && HexDigitValue(c) == d
  {
    if d < 10 then ('0' as int + d) as char else ('A' as int + d - 10) as char
  }

  predicate AllHex(s: string) {
    forall i :: 0 <= i < |s| ==> IsHexDigit(s[i])
  }

  /** The number a string of hexadecimal digits denotes. */
  function HexValue(s: string): (n: nat)
    requires AllHex(s)
  {
    if s == [] then 0
    else HexValue(s[..|s| - 1]) * 16 + HexDigitValue(s[|s| - 1])
  }

  /** `n` as two hexadecimal digits. */
  function Hex2(n: nat): (s: string)
    requires n < 256
    ensures |s| == 2 && AllHex(s) && HexValue(s) == n
  {
    var s := [HexDigit(n / 16), HexDigit(n % 16)];
    assert s[..1] == [s[0]] && [s[0]][..0] == [];
    assert HexValue(s[..1]) == n / 16;
    s
  }

  /** Two more digits multiply the value of what precedes them by 256. */
  lemma HexValueAppend2(a: string, b: string)
    requires AllHex(a) && |b| == 2 && AllHex(b)
    ensures AllHex(a + b) && HexValue(a + b) == HexValue(a) * 256 + HexValue(b)
  {
    var ab := a + b;
    assert ab[..|ab| - 1] == a + [b[0]];
    assert (a + [b[0]])[..|a|] == a;
    assert b[..1] == [b[0]] && [b[0]][..0] == [];
    assert HexValue(b[..1]) == HexDigitValue(b[0]);
    assert HexValue(a + [b[0]]) == HexValue(a) * 16 + HexDigitValue(b[0]);
    assert HexValue(b) == HexDigitValue(b[0]) * 16 + HexDigitValue(b[1]);
  }

  /** `format!("{:04X}", x)`. */
  function Hex4(x: U16): (s: string)
    ensures |s| == 4 && AllHex(s) && HexValue(s) == x as nat
  {
    var s := Hex2(x as nat / 256) + Hex2(x as nat % 256);
    HexValueAppend2(Hex2(x as nat / 256), Hex2(x as nat % 256));
    s
  }

  /** Equal four-digit strings come from equal ids. */
  lemma Hex4Injective(x: U16, y: U16)
    ensures Hex4(x) == Hex4(y) <==> x == y
  {
  }

  // ---------------------------------------------------------------------------
  // The `--list-probes` line of one probe
  // ---------------------------------------------------------------------------

  /** `  - VID:PID:Serial (identifier)`, an empty serial number for a probe without one. */
  function ProbeLine(p: ProbeInfo): (l: string) {
    "  - " + Hex4(p.vendorId) + ":" + Hex4(p.productId) + ":" + p.serialNumber.UnwrapOr("")
      + " (" + p.identifier + ")"
  }

  /** The ids at the front of a probe's line, over any four-character ids. */
  lemma LineIds(vid: string, pid: string, serial: string, identifier: string)
    requires |vid| == 4 && |pid| == 4
    ensures var l := "  - " + vid + ":" + pid + ":" + serial + " (" + identifier + ")";
            && l[..4] == "  - " && l[4..8] == vid && l[8] == ':' && l[9..13] == pid && l[13] == ':'
  {
    var rest := pid + ":" + serial + " (" + identifier + ")";
    var l := "  - " + vid + ":" + pid + ":" + serial + " (" + identifier + ")";
    assert l == "  - " + vid + ":" + rest;
    ThreePartsReadBack("  - ", vid, ":", rest);
    assert l[9..13] == rest[..4] && l[13] == rest[4];
  }

  /** The serial number and the identifier at the back of a probe's line. */
  lemma LineNames(vid: string, pid: string, serial: string, identifier: string)
    requires |vid| == 4 && |pid| == 4
    ensures var l := "  - " + vid + ":" + pid + ":" + serial + " (" + identifier + ")";
            && |l| == 17 + |serial| + |identifier|
            && l[14..14 + |serial|] == serial
            && l[14 + |serial|..16 + |serial|] == " ("
            && l[16 + |serial|..|l| - 1] == identifier && l[|l| - 1] == ')'
  {
    var front := "  - " + vid + ":" + pid + ":";
    var l := "  - " + vid + ":" + pid + ":" + serial + " (" + identifier + ")";
    assert l == front + serial + " (" + (identifier + ")");
    ThreePartsReadBack(front, serial, " (", identifier + ")");
  }

  /** The ids, the serial number and the identifier can be read back off a probe's line. */
  lemma ProbeLineFields(p: ProbeInfo)
    ensures var l := ProbeLine(p);
            var serial := p.serialNumber.UnwrapOr("");
            && |l| == 17 + |serial| + |p.identifier|
            && l[..4] == "  - " && l[8] == ':' && l[13] == ':'
            && AllHex(l[4..8]) && HexValue(l[4..8]) == p.vendorId as nat
            && AllHex(l[9..13]) && HexValue(l[9..13]) == p.productId as nat
            && l[14..14 + |serial|] == serial
            && l[14 + |serial|..16 + |serial|] == " ("
            && l[16 + |serial|..|l| - 1] == p.identifier && l[|l| - 1] == ')'
  {
    var vid, pid := Hex4(p.vendorId), Hex4(p.productId);
    LineIds(vid, pid, p.serialNumber.UnwrapOr(""), p.identifier);
    LineNames(vid, pid, p.serialNumber.UnwrapOr(""), p.identifier);
  }
}
