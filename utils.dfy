/**
 * `utils::read_line` (src/utils.rs): one line from standard input, trimmed,
 * with an empty result refused. The read itself is I/O; here its outcome is
 * an input (`LineInput`), and what the function does with it is modelled.
 */
module Utils {
  import opened Wrappers
  import opened Errors

  /** Rust's `char::is_whitespace`: the characters with the Unicode White_Space property. */
  predicate IsWhitespace(c: char) {
    || '\t' <= c <= '\r'              // tab, line feed, vertical tab, form feed, carriage return
    || c == ' '
    || c == '\U{85}' || c == '\U{A0}' || c == '\U{1680}'
    || '\U{2000}' <= c <= '\U{200A}'
    || c == '\U{2028}' || c == '\U{2029}' || c == '\U{202F}' || c == '\U{205F}'
    || c == '\U{3000}'
  }

  predicate AllWhitespace(s: string) {
    forall i :: 0 <= i < |s| ==> IsWhitespace(s[i])
  }

  /** Neither end of `s` is whitespace (vacuously true of the empty string). */
  predicate Trimmed(s: string) {
    s != [] ==> !IsWhitespace(s[0]) && !IsWhitespace(s[|s| - 1])
  }

  /** `str::trim_start`: the suffix of `s` that starts at its first non-whitespace character. */
  function TrimStart(s: string): (r: string)
    ensures |r| <= |s| && r == s[|s| - |r|..]
    ensures AllWhitespace(s[..|s| - |r|])
    ensures r != [] ==> !IsWhitespace(r[0])
  {
    if s != [] && IsWhitespace(s[0]) then TrimStart(s[1..]) else s
  }

  /** `str::trim_end`: the prefix of `s` that ends at its last non-whitespace character. */
  function TrimEnd(s: string): (r: string)
    ensures |r| <= |s| && r == s[..|r|]
    ensures AllWhitespace(s[|r|..])
    ensures r != [] ==> !IsWhitespace(r[|r| - 1])
  {
    if s != [] && IsWhitespace(s[|s| - 1]) then
      var r := TrimEnd(s[..|s| - 1]);
      assert s[|r|..] == s[..|s| - 1][|r|..] + [s[|s| - 1]];
      r
    else
      s
  }

  /** `str::trim`: whitespace removed from the two ends, so neither end of the
      result is whitespace. */
  function Trim(s: string): (r: string)
    ensures Trimmed(r) && |r| <= |s|
  {
    TrimEnd(TrimStart(s))
  }

  /** Trim removes whitespace from the two ends only: the result is a slice of the input
      whose surroundings are all whitespace. */
  lemma TrimIsSlice(s: string)
    ensures exists i, j :: 0 <= i <= j <= |s| && Trim(s) == s[i..j]
                           && AllWhitespace(s[..i]) && AllWhitespace(s[j..])
  {
    var t := TrimStart(s);
    var r := TrimEnd(t);
    var i := |s| - |t|;
    var j := i + |r|;
    assert r == s[i..j];
    assert s[j..] == t[|r|..];
  }

  /** Trim leaves nothing exactly when the input is whitespace only. */
  lemma TrimEmptyIff(s: string)
    ensures Trim(s) == [] <==> AllWhitespace(s)
  {
    var t := TrimStart(s);
    if Trim(s) == [] {
      assert s == s[..|s| - |t|] + t;
      assert AllWhitespace(t[0..]);
    }
  }

  /** A string with no whitespace at either end is its own trim. */
  lemma TrimOfTrimmed(s: string)
    requires Trimmed(s)
    ensures Trim(s) == s
  {
  }

  /** Trimming is idempotent. */
  lemma TrimIdempotent(s: string)
    ensures Trim(Trim(s)) == Trim(s)
  {
    TrimOfTrimmed(Trim(s));
  }

  /** What one read from standard input produced: the line read (its trailing
      newline included; at end of input, the empty string) or a read failure. */
  datatype LineInput = Line(text: string) | ReadFailed

  /** `read_line`: trim the line; an empty result is an `InvalidInput` error. */
  function ReadLine(input: LineInput): (r: Result<string, Error>)
    ensures input.ReadFailed? ==> r == Err(StdinFailed)
    ensures input.Line? ==> (r.Err? <==> AllWhitespace(input.text))
    ensures input.Line? && r.Err? ==> r.error == InvalidInput
    ensures r.Ok? ==> r.value != [] && Trimmed(r.value)
    ensures r.Ok? ==> exists i, j :: 0 <= i <= j <= |input.text| && r.value == input.text[i..j]
                                     && AllWhitespace(input.text[..i]) && AllWhitespace(input.text[j..])
  {
    match input
    case ReadFailed => Err(StdinFailed)
    case Line(text) =>
      TrimIsSlice(text);
      TrimEmptyIff(text);
      var line := Trim(text);
      if line == [] then Err(InvalidInput) else Ok(line)
  }

  /** Feeding a successful result back in returns it unchanged. */
  lemma ReadLineIdempotent(input: LineInput)
    requires ReadLine(input).Ok?
    ensures ReadLine(Line(ReadLine(input).value)) == ReadLine(input)
  {
    TrimOfTrimmed(ReadLine(input).value);
  }
}
