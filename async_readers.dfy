/** The asynchronous readers and `async_read_config_file`. They read the file
    as text and decode it with the same decoders as the synchronous ones, with
    two differences: an unsupported suffix is reported lower-cased, and on an
    interpreter whose TOML module only parses text (`tomllib`, Python 3.11 and
    later) the TOML reader opens the file in binary mode and hands the bytes
    to that text parser, which raises TypeError. `binaryToml` says which
    interpreter is running. */
module AsyncReaders {
  import opened Text
  import opened Paths
  import opened Wrappers
  import opened Formats
  import opened ConfigValues
  import opened FileSystem
  import opened Errors
  import opened ConfigReaders

  /** `async_read_toml_file` as written: on a binary-TOML interpreter every
      existing file fails with TypeError, which is logged and re-raised. */
  function AsyncReadTomlFile(fs: Fs, path: Path, codecs: Codecs, binaryToml: bool): Result<Value>
  {
    if !IsFile(fs, path) then Err(FileNotFound(path))
    else if binaryToml then Err(TomlGivenBytes(path))
    else ReadDecodedFile(fs, path, Toml, codecs.toml)
  }

  /** The TOML reader as evidently intended: decode the file's text, as the
      other asynchronous readers do. */
  function AsyncReadTomlFileIntended(fs: Fs, path: Path, codecs: Codecs): Result<Value>
  {
    if !IsFile(fs, path) then Err(FileNotFound(path))
    else ReadDecodedFile(fs, path, Toml, codecs.toml)
  }

  /** The reader `async_read_config_file` awaits for a format. The YAML, JSON
      and INI readers decode the same text as their synchronous twins. */
  function AsyncReadAs(fs: Fs, path: Path, f: Format, codecs: Codecs, binaryToml: bool): Result<Value>
  {
    if f == Toml then AsyncReadTomlFile(fs, path, codecs, binaryToml)
    else ReadAs(fs, path, f, codecs)
  }

  /** `async_read_config_file`: existence first, then the lower-cased suffix
      picks a reader; an unrecognised suffix is a ValueError naming the
      lower-cased suffix. */
  function AsyncReadConfigFile(fs: Fs, path: Path, codecs: Codecs, binaryToml: bool): Result<Value>
  {
    if !IsFile(fs, path) then Err(FileNotFound(path))
    else match FormatOfSuffix(Lower(Suffix(path)))
      case None => Err(UnsupportedFormat(Lower(Suffix(path)), path))
      case Some(f) => AsyncReadAs(fs, path, f, codecs, binaryToml)
  }

  /** The asynchronous readers replace a falsy decoder result by `{}` and
      return a truthy one unchanged, and the INI reader gives one key per
      section, as the synchronous readers do. */
  lemma AsyncReadersNormalise(fs: Fs, path: Path, f: Format, codecs: Codecs, binaryToml: bool)
    requires IsFile(fs, path) && (f != Toml || !binaryToml)
    ensures f != Ini ==>
              (DecoderFor(codecs, f)(fs[path].content).Decoded? <==> AsyncReadAs(fs, path, f, codecs, binaryToml).Ok?)
    ensures f != Ini && AsyncReadAs(fs, path, f, codecs, binaryToml).Ok? ==>
              AsyncReadAs(fs, path, f, codecs, binaryToml).value
              == OrEmpty(DecoderFor(codecs, f)(fs[path].content).value)
    ensures f == Ini ==>
              (codecs.ini(fs[path].content).Decoded? <==> AsyncReadAs(fs, path, f, codecs, binaryToml).Ok?)
    ensures f == Ini && codecs.ini(fs[path].content).Decoded? ==>
              AsyncReadAs(fs, path, f, codecs, binaryToml)
              == Ok(Dict(IniToConfig(codecs.ini(fs[path].content).value)))
  {
  }

  /** The asynchronous dispatcher agrees with the synchronous one: the same
      existence check first, the same reader for every recognised suffix
      except TOML on a binary-TOML interpreter, and the same rejection of
      every other suffix, reported lower-cased instead of as written. */
  lemma AsyncAgreesWithSync(fs: Fs, path: Path, codecs: Codecs, binaryToml: bool)
    ensures !IsFile(fs, path) ==>
              AsyncReadConfigFile(fs, path, codecs, binaryToml) == ReadConfigFile(fs, path, codecs)
    ensures IsFile(fs, path) && FormatOfSuffix(Lower(Suffix(path))) == None ==>
              && ReadConfigFile(fs, path, codecs) == Err(UnsupportedFormat(Suffix(path), path))
              && AsyncReadConfigFile(fs, path, codecs, binaryToml) == Err(UnsupportedFormat(Lower(Suffix(path)), path))
    ensures FormatOfSuffix(Lower(Suffix(path))) != Some(Toml) || !binaryToml ==>
              AsyncReadConfigFile(fs, path, codecs, binaryToml).Ok? == ReadConfigFile(fs, path, codecs).Ok?
    ensures FormatOfSuffix(Lower(Suffix(path))).Some? && (FormatOfSuffix(Lower(Suffix(path))) != Some(Toml) || !binaryToml) ==>
              AsyncReadConfigFile(fs, path, codecs, binaryToml) == ReadConfigFile(fs, path, codecs)
  {
  }

  /** Letter case in the suffix does not matter to the asynchronous
      dispatcher either: `X.YML` is read by the YAML reader. */
  lemma AsyncReadConfigFileIgnoresCase(fs: Fs, path: Path, codecs: Codecs, binaryToml: bool, f: Format, e: string)
    requires IsFile(fs, path)
    requires e in GlobExtensions(f) && EqualsIgnoringCase(Suffix(path), "." + e)
    ensures AsyncReadConfigFile(fs, path, codecs, binaryToml) == AsyncReadAs(fs, path, f, codecs, binaryToml)
  {
    DispatchMatchesGlobTable(Suffix(path), f);
  }

  /** As written, on a binary-TOML interpreter no TOML file can be read
      asynchronously, even one the synchronous reader decodes. */
  lemma AsyncTomlBinaryAlwaysFails(fs: Fs, path: Path, codecs: Codecs)
    requires IsFile(fs, path) && FormatOfSuffix(Lower(Suffix(path))) == Some(Toml)
    ensures AsyncReadConfigFile(fs, path, codecs, true) == Err(TomlGivenBytes(path))
    ensures codecs.toml(fs[path].content).Decoded? ==> ReadConfigFile(fs, path, codecs).Ok?
  {
  }

  /** The intended TOML reader agrees with the synchronous one, and with the
      as-written reader on an interpreter whose TOML module reads text. */
  lemma AsyncTomlIntendedMatchesSync(fs: Fs, path: Path, codecs: Codecs)
    ensures AsyncReadTomlFileIntended(fs, path, codecs) == ReadAs(fs, path, Toml, codecs)
    ensures AsyncReadTomlFileIntended(fs, path, codecs) == AsyncReadTomlFile(fs, path, codecs, false)
  {
  }
}
