/** The argument checks at the top of the directory and file helpers:
    a path argument is stripped and must have between 1 and `MAX_PATH_LENGTH`
    characters, a chunk size must be at least 10, and a warning mode given as
    text is stripped, upper-cased and looked up among the four mode names. */
module Validators {
  import opened Text
  import E = Errors

  /** `WarnEnum`. */
  datatype WarnMode = Error | Always | Debug | Ignore

  /** The text value of each mode. */
  function WarnModeValue(m: WarnMode): string
  {
    match m
    case Error => "ERROR"
    case Always => "ALWAYS"
    case Debug => "DEBUG"
    case Ignore => "IGNORE"
  }

  /** `warn_mode`: either already a mode or text to convert. */
  datatype WarnArg = Given(mode: WarnMode) | AsText(text: string)

  /** The helpers that take one path argument and a warning mode, and the
      name each gives that argument in its error message. */
  datatype Helper = CreateDir | RemoveDir | RemoveFile

  function ArgumentName(h: Helper): string
  {
    match h
    case CreateDir => "create_dir"
    case RemoveDir => "remove_dir"
    case RemoveFile => "file_path"
  }

  /** The stripped path argument, or a ValueError when its length lies
      outside [1, maxPathLength]. */
  function CheckPathArgument(argument: string, value: string, maxPathLength: nat): (r: E.Result<string>)
    ensures r.Ok? <==> 1 <= |Strip(value)| <= maxPathLength
    ensures r.Ok? ==> r.value == Strip(value) && Trimmed(r.value)
    ensures r.Err? ==> r.error == E.ArgumentLengthOutOfRange(argument, |Strip(value)|)
  {
    var v := Strip(value);
    if |v| < 1 || maxPathLength < |v| then E.Err(E.ArgumentLengthOutOfRange(argument, |v|))
    else E.Ok(v)
  }

  /** `WarnEnum(text.strip().upper())`. */
  function ParseWarnMode(text: string): (r: E.Result<WarnMode>)
    ensures r.Ok? ==> WarnModeValue(r.value) == Upper(Strip(text))
    ensures r.Err? ==> r.error == E.UnknownWarnMode(Upper(Strip(text)))
                       && forall m :: WarnModeValue(m) != Upper(Strip(text))
  {
    var n := Upper(Strip(text));
    if n == "ERROR" then E.Ok(Error)
    else if n == "ALWAYS" then E.Ok(Always)
    else if n == "DEBUG" then E.Ok(Debug)
    else if n == "IGNORE" then E.Ok(Ignore)
    else E.Err(E.UnknownWarnMode(n))
  }

  function ResolveWarnMode(w: WarnArg): E.Result<WarnMode>
  {
    match w
    case Given(m) => E.Ok(m)
    case AsText(t) => ParseWarnMode(t)
  }

  /** `chunk_size < 10` is a ValueError; 10 itself is accepted. */
  function CheckChunkSize(chunkSize: int): (r: E.Result<int>)
    ensures r.Ok? <==> chunkSize >= 10
    ensures r.Ok? ==> r.value == chunkSize
    ensures r.Err? ==> r.error == E.ChunkSizeInvalid(chunkSize)
  {
    if chunkSize < 10 then E.Err(E.ChunkSizeInvalid(chunkSize)) else E.Ok(chunkSize)
  }

  /** The checks of `create_dir`, `remove_dir` and `remove_file`: the path
      first, then the warning mode. */
  function CheckArguments(h: Helper, path: string, warn: WarnArg, maxPathLength: nat): E.Result<(string, WarnMode)>
  {
    match CheckPathArgument(ArgumentName(h), path, maxPathLength)
    case Err(e) => E.Err(e)
    case Ok(p) =>
      match ResolveWarnMode(warn)
      case Err(e) => E.Err(e)
      case Ok(m) => E.Ok((p, m))
  }

  /** The checks of `get_file_checksum`: the path, then the chunk size, then
      the warning mode. */
  function CheckChecksumArguments(path: string, chunkSize: int, warn: WarnArg, maxPathLength: nat)
    : E.Result<(string, int, WarnMode)>
  {
    match CheckPathArgument("file_path", path, maxPathLength)
    case Err(e) => E.Err(e)
    case Ok(p) =>
      match CheckChunkSize(chunkSize)
      case Err(e) => E.Err(e)
      case Ok(n) =>
        match ResolveWarnMode(warn)
        case Err(e) => E.Err(e)
        case Ok(m) => E.Ok((p, n, m))
  }

  /** Whitespace around a path argument changes neither the verdict nor the
      accepted path, and an accepted path passes the check again unchanged. */
  lemma PathArgumentIgnoresPadding(argument: string, pre: string, t: string, post: string, maxPathLength: nat)
    requires AllSpace(pre) && AllSpace(post) && Trimmed(t)
    ensures CheckPathArgument(argument, pre + t + post, maxPathLength) == CheckPathArgument(argument, t, maxPathLength)
    ensures CheckPathArgument(argument, t, maxPathLength).Ok? ==> CheckPathArgument(argument, t, maxPathLength).value == t
  {
    StripPadding(pre, t, post);
    StripPadding("", t, "");
    assert "" + t + "" == t;
  }

  lemma PathArgumentIdempotent(argument: string, value: string, maxPathLength: nat)
    requires CheckPathArgument(argument, value, maxPathLength).Ok?
    ensures CheckPathArgument(argument, CheckPathArgument(argument, value, maxPathLength).value, maxPathLength)
         == CheckPathArgument(argument, value, maxPathLength)
  {
    StripIdempotent(value);
  }

  /** A path argument that is empty or only whitespace is always rejected,
      with length 0. */
  lemma BlankPathRejected(argument: string, value: string, maxPathLength: nat)
    requires AllSpace(value)
    ensures CheckPathArgument(argument, value, maxPathLength) == E.Err(E.ArgumentLengthOutOfRange(argument, 0))
  {
    StripPadding(value, "", "");
    assert value + "" + "" == value;
  }

  /** Every mode name is a non-empty word of ASCII capitals. */
  lemma WarnModeValueCapitals(m: WarnMode)
    ensures |WarnModeValue(m)| > 0
    ensures forall k :: 0 <= k < |WarnModeValue(m)| ==> 'A' <= WarnModeValue(m)[k] <= 'Z'
  {
  }

  lemma UpperOfAnyCase(t: string, v: string)
    requires |v| > 0 && forall k :: 0 <= k < |v| ==> 'A' <= v[k] <= 'Z'
    requires EqualsIgnoringCase(t, v)
    ensures Trimmed(t) && Upper(t) == v
  {
    assert !IsSpace(t[0]) && !IsSpace(t[|t| - 1]) by {
      assert 'A' <= v[0] <= 'Z' && 'A' <= v[|v| - 1] <= 'Z';
    }
    forall k | 0 <= k < |t| ensures Upper(t)[k] == v[k] {
      assert 'A' <= v[k] <= 'Z';
    }
  }

  /** Conversion ignores surrounding whitespace and letter case: " debug\n",
      "Debug" and "DEBUG" all name the same mode. */
  lemma ParseWarnModeAnyCase(pre: string, t: string, post: string, m: WarnMode)
    requires AllSpace(pre) && AllSpace(post)
    requires EqualsIgnoringCase(t, WarnModeValue(m))
    ensures ParseWarnMode(pre + t + post) == E.Ok(m)
  {
    WarnModeValueCapitals(m);
    UpperOfAnyCase(t, WarnModeValue(m));
    StripPadding(pre, t, post);
  }

  /** Each mode's own name converts back to that mode. */
  lemma WarnModeRoundTrip(m: WarnMode)
    ensures ParseWarnMode(WarnModeValue(m)) == E.Ok(m)
  {
    var v := WarnModeValue(m);
    assert AllSpace("");
    assert "" + v + "" == v;
    ParseWarnModeAnyCase("", v, "", m);
  }

  /** A path argument out of range is reported before anything about the
      warning mode, and a valid path with an unknown mode reports the mode. */
  lemma CheckArgumentsPrecedence(h: Helper, path: string, warn: WarnArg, maxPathLength: nat)
    ensures CheckPathArgument(ArgumentName(h), path, maxPathLength).Err? ==>
              CheckArguments(h, path, warn, maxPathLength).error == CheckPathArgument(ArgumentName(h), path, maxPathLength).error
    ensures CheckArguments(h, path, warn, maxPathLength).Ok?
        <==> CheckPathArgument(ArgumentName(h), path, maxPathLength).Ok? && ResolveWarnMode(warn).Ok?
    ensures CheckPathArgument(ArgumentName(h), path, maxPathLength).Ok? && ResolveWarnMode(warn).Err? ==>
              CheckArguments(h, path, warn, maxPathLength).error == ResolveWarnMode(warn).error
    ensures CheckArguments(h, path, warn, maxPathLength).Ok? ==>
              CheckArguments(h, path, warn, maxPathLength).value
              == (Strip(path), ResolveWarnMode(warn).value)
  {
  }

  /** `get_file_checksum` reports the path first, then the chunk size, then
      the mode: a chunk size below 10 is reported even with an unknown mode. */
  lemma CheckChecksumArgumentsPrecedence(path: string, chunkSize: int, warn: WarnArg, maxPathLength: nat)
    ensures CheckChecksumArguments(path, chunkSize, warn, maxPathLength).Ok?
        <==> 1 <= |Strip(path)| <= maxPathLength && chunkSize >= 10 && ResolveWarnMode(warn).Ok?
    ensures !(1 <= |Strip(path)| <= maxPathLength) ==>
              CheckChecksumArguments(path, chunkSize, warn, maxPathLength)
              == E.Err(E.ArgumentLengthOutOfRange("file_path", |Strip(path)|))
    ensures 1 <= |Strip(path)| <= maxPathLength && chunkSize < 10 ==>
              CheckChecksumArguments(path, chunkSize, warn, maxPathLength) == E.Err(E.ChunkSizeInvalid(chunkSize))
  {
  }
}
