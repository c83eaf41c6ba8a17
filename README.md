# potato_util configuration I/O, modelled in Dafny

This project models the configuration-file part of `potato_util.io`, both the
synchronous module (`_sync.py`) and its asynchronous twin (`_async.py`):

- `read_config_file` / `async_read_config_file` check that the path is an
  existing regular file, lower-case its suffix and pass the file to the YAML,
  JSON, TOML or INI reader. Any other suffix is a `ValueError`.
- The readers decode the file with a third-party decoder and replace a falsy
  result by `{}`. The INI readers turn every section into a top-level key
  whose value is a dict of that section's items.
- `read_all_configs` wraps a single directory into a list and resolves
  relative directories against the working directory. It skips directories
  that do not exist and globs each existing one for the extensions of the
  allowed formats. It then sorts the combined path list and folds the merge
  function over the files, starting from `{}`.
- The helpers that create or remove directories and files, and the checksum
  helper, begin with the same argument checks:
  - a path argument is stripped and must then have 1 to `MAX_PATH_LENGTH` characters;
  - `chunk_size` must be at least 10;
  - a warning mode given as text is stripped, upper-cased and converted to one of `ERROR`, `ALWAYS`, `DEBUG`, `IGNORE`.

The environment is explicit:

- The file system is a map from paths to nodes. A node is a file with its
  text or a directory with its listing in listing order. A listed name with
  no node is a dangling link.
- The working directory, `MAX_PATH_LENGTH` and the interpreter's TOML module
  (binary or text) are parameters.
- The decoders (`yaml.safe_load`, `json.load`, `tomllib`/`toml`,
  `ConfigParser`) are the function-valued fields of `Codecs`. Each maps a
  file's text to a value or to the exception it raised.
- `deep_merge` is an arbitrary total function `(Value, Value) -> Value`: it is
  assumed to return a value for every pair of arguments and never to raise,
  including when a loaded file holds a non-empty list rather than a mapping.
  Beyond that nothing is assumed about what it returns, so every aggregation
  property holds whatever value the merge produces; the statements that name
  the only possible failures hold under this totality assumption.

Python's operations are written out:

- `str.strip` uses Python's whitespace set.
- `str.lower`/`str.upper` are exact for every character whose case mapping
  is a single ASCII letter: ASCII letters, KELVIN SIGN, DOTLESS I and LONG S.
  Other characters are left unchanged (see "Left out").
- `Path.suffix` takes the text from the last dot of the final component, when
  that dot is neither first nor last.
- `os.path.join` and `os.path.isabs` are modelled for POSIX paths.
- `glob`'s `*.ext` is case-sensitive and skips hidden names.
- `dict(pairs)` keeps the last value for a repeated key.
- `list.sort` orders strings by code point. It is the function `Sort`,
  proved sorted, a permutation, and the only sorted permutation.

`read_all_configs` is modelled twice:

- as the methods `CollectPaths` and `ReadAllConfigs`, whose loops grow the
  path list and the accumulator as the source does;
- as the function `ReadAllConfigsSpec`: discovery, then sort, then fold.

The methods are proved equal to the function, and the properties are proved
about the function. The INI fill loop is the method `ShapeIni`, proved equal
to the function `IniToConfig`.

The chunk-size error message says the value "must be greater than 10", but
the code rejects only values below 10, so 10 is accepted. The model follows
the code.

## Model

| member | source | states |
|---|---|---|
| Formats.DispatchMatchesGlobTable | src/potato_util/io/_sync.py:453-461 | the lower-cased suffix selects format f exactly when the suffix spells "." plus one of f's glob extensions (yaml/yml, json, toml, ini/cfg), ignoring letter case |
| Formats.FormatOfSuffixIsGlobTable | src/potato_util/io/_sync.py:454-461 | the if/elif dispatch chain equals the extension table read backwards, in both directions |
| Formats.GlobTableDispatchesBack | src/potato_util/io/_sync.py:505-517 | every globbed extension of a format dispatches back to that format, so no two formats share an extension |
| ConfigReaders.ReadConfigFileOutcomes | src/potato_util/io/_sync.py:450-465 | `ReadConfigFile`: a non-file is FileNotFoundError whatever its suffix; an unknown suffix on a file is ValueError naming the suffix as written; a recognised suffix on a file fails only by a decoder error of the selected format; any value returned is truthy or `{}` |
| ConfigReaders.ReadConfigFileIgnoresCase | src/potato_util/io/_sync.py:453-461 | a file whose suffix spells an extension of format f in any letter case (`X.YML`) is read by f's reader |
| ConfigReaders.ReadAsNormalises | src/potato_util/io/_sync.py:313-421 | `ReadAs`, through `ReadDecodedFile` for the YAML, JSON and TOML (binary and text mode) readers and `ReadIniFile` for the INI reader: a reader fails exactly when its decoder fails; a falsy decoded value becomes `{}` and a truthy one, including a non-mapping, is returned unchanged; the INI reader returns the section mapping |
| ConfigValues.OrEmptyNormalises | src/potato_util/io/_sync.py:316 | `v or {}` is always truthy or `{}`, is v exactly when v is already so, and is `{}` otherwise |
| ConfigValues.OrEmptyKeepsNonMappings | src/potato_util/io/_sync.py:349 | an empty document (None), 0, "", false and [] become `{}`, while a non-empty list passes through |
| ConfigReaders.ShapeIni | src/potato_util/io/_sync.py:418-421 | the section loop builds exactly `IniToConfig(sections)` |
| ConfigReaders.FromPairsLastWins | src/potato_util/io/_sync.py:421 | `dict(items)`: a key is present iff some pair has it, and it maps to the last such pair's value |
| ConfigReaders.IniOneKeyPerSection | src/potato_util/io/_sync.py:418-421 | with distinct section names: the keys are exactly the section names, one per section, each holding the dict of its items, and an empty section holds `{}` |
| ConfigReaders.IniIsTwoLevel | src/potato_util/io/_sync.py:420-421 | every value of the INI mapping is a dict whose values are all strings |
| Aggregation.CollectPaths | src/potato_util/io/_sync.py:495-517 | the directory loop builds exactly the discovery function's path list |
| Aggregation.AppendMatches | src/potato_util/io/_sync.py:504-517 | for an existing directory the loop body appends the globs of each allowed format, in the order YAML (yaml, yml), JSON, TOML, INI (ini, cfg); for a missing one it appends nothing |
| Aggregation.ReadAllConfigs | src/potato_util/io/_sync.py:490-524 | the method (collect, sort, fold with early failure) returns exactly `ReadAllConfigsSpec` |
| Aggregation.AggregateIsLeftFold | src/potato_util/io/_sync.py:520-522 | `Aggregate`: when every file loads, the result is `merge(...merge(merge({}, v1), v2)..., vn)` over the sorted paths |
| Aggregation.AggregateStopsAtFirstError | src/potato_util/io/_sync.py:520-522 | `Aggregate`: the error returned is that of the first path that fails to load |
| Aggregation.AggregateFailsIffSomeFails | src/potato_util/io/_sync.py:520-522 | `Aggregate`: the read fails exactly when some path fails to load, and then with an error one of the paths produced |
| Aggregation.NothingDiscoveredGivesEmpty | src/potato_util/io/_sync.py:490 | with no matched file the result is `{}` |
| Aggregation.MissingDirsGiveEmpty | src/potato_util/io/_sync.py:504 | directory arguments none of which exists give `{}` and no error |
| Aggregation.AggregationIgnoresListingOrder | src/potato_util/io/_sync.py:519 | after the sort, the result is the same whatever order directories list their entries in |
| Aggregation.AggregationErrors | src/potato_util/io/_sync.py:519-522 | a discovered file is never rejected for its suffix: the only failures are a matched entry that is not a regular file, or a decoder error of an allowed format |
| Aggregation.NonFileMatchAborts | src/potato_util/io/_sync.py:450-451 | a matched entry that is not a regular file (a directory named `x.yaml`, a dangling link) makes the whole read fail |
| Ordering.Sort | src/potato_util/io/_sync.py:519 | `Sort`, with `LexLe` as Python's code-point string order: the sorted list is ascending and a permutation of the collected paths |
| Ordering.SortedUnique | src/potato_util/io/_sync.py:519 | two ascending permutations of the same paths are equal |
| Ordering.SortIgnoresInputOrder | src/potato_util/io/_sync.py:519 | the sorted list depends only on the multiset of collected paths |
| Discovery.DiscoverMember | src/potato_util/io/_sync.py:492-502 | `Discover`: a path is collected exactly when one of the directory arguments (`DirList` wraps a single one into a list), resolved against the working directory by `ResolveDir`, contributes it |
| Discovery.DirMatchesMember | src/potato_util/io/_sync.py:504-517 | an existing directory contributes exactly its listed names that match an extension of an allowed format, joined onto it; a missing one contributes nothing |
| Discovery.GlobInMember | src/potato_util/io/_sync.py:506 | `GlobIn`: a glob result is exactly a listed name that satisfies `GlobMatches` for `*.ext` (case-sensitive, not hidden), joined onto the directory with `Join` |
| Discovery.DiscoverConcat | src/potato_util/io/_sync.py:495-517 | collecting over two lists of directory arguments in turn gives the two path lists one after the other |
| Discovery.MissingDirSkipped | src/potato_util/io/_sync.py:504 | removing a directory argument that does not exist changes nothing |
| Discovery.DiscoveredSuffixAllowed | src/potato_util/io/_sync.py:504-517 | every collected path's suffix dispatches to one of the allowed formats |
| Discovery.GlobbedSuffix | src/potato_util/io/_sync.py:506 | a name globbed for extension e of format f has suffix "." + e, which dispatches to f |
| Discovery.DefaultSkipsIni | src/potato_util/io/_sync.py:473-477 | with the default allow-list no `.ini` or `.cfg` file is collected |
| Discovery.DirMatchesIgnoresListingOrder | src/potato_util/io/_sync.py:504-517 | a directory's contribution depends on its listing only up to order |
| Discovery.DiscoverIgnoresListingOrder | src/potato_util/io/_sync.py:495-517 | the collected paths depend on listings only up to order |
| Discovery.GlobInPermutation | src/potato_util/io/_sync.py:506 | reordering a listing only reorders the glob result |
| Paths.SuffixOfExtension | src/potato_util/io/_sync.py:453 | `Suffix` (`Path.suffix`) of `Join(dir, stem.ext)`, with stem non-empty and ext without a dot, is ".ext" |
| Paths.BaseNameOfJoin | src/potato_util/io/_sync.py:506 | `Join` (`os.path.join`): the final component of `Join(dir, name)` is name |
| Paths.BaseNameAfterSeparator | src/potato_util/io/_sync.py:453 | a path made of a prefix ending in '/' and a slash-free name has that name as its final component |
| Paths.RFindIsLast | src/potato_util/io/_sync.py:453 | the index found holds the character and no later index does |
| Paths.NameSuffixOfExtension | src/potato_util/io/_sync.py:453 | the suffix of `stem.ext` is `.ext` when ext holds no dot |
| Text.Strip | src/potato_util/io/_sync.py:48 | the stripped text has no whitespace at either end and is no longer than the input |
| Text.StripPadding | src/potato_util/io/_sync.py:48 | stripping removes exactly the whitespace around a trimmed text |
| Text.StripIdempotent | src/potato_util/io/_sync.py:48 | stripping twice is stripping once |
| Text.LowerEqualsIff | src/potato_util/io/_sync.py:453 | lower-casing gives a lower-case ASCII word exactly when the text spells it in any letter case |
| Text.Lower | src/potato_util/io/_sync.py:453 | lower-casing keeps the length |
| Text.Upper | src/potato_util/io/_sync.py:56 | upper-casing maps ASCII letters, DOTLESS I and LONG S to upper case, leaves every other character unchanged and keeps the length |
| Validators.CheckPathArgument | src/potato_util/io/_sync.py:48-53 | accepted iff the stripped length lies in [1, MAX_PATH_LENGTH]; the accepted value is the stripped text; the error names the argument and the stripped length (the asynchronous helpers, `_async.py:46-51`, apply the same check) |
| Validators.PathArgumentIgnoresPadding | src/potato_util/io/_sync.py:101-106 | whitespace around a path argument changes neither the verdict nor the accepted path |
| Validators.PathArgumentIdempotent | src/potato_util/io/_sync.py:172-177 | an accepted path passes the check again unchanged |
| Validators.BlankPathRejected | src/potato_util/io/_sync.py:253-258 | an empty or all-whitespace path argument is rejected with length 0 |
| Validators.ParseWarnMode | src/potato_util/io/_sync.py:55-56 | a converted mode's name is the stripped, upper-cased text; otherwise ValueError with that text, which names no mode (`_async.py:53-54` converts the same way) |
| Validators.ParseWarnModeAnyCase | src/potato_util/io/_sync.py:108-109 | surrounding whitespace and ASCII letter case do not matter: " debug\n" names DEBUG |
| Validators.WarnModeRoundTrip | src/potato_util/io/_sync.py:179-180 | each mode's own name converts back to that mode |
| Validators.CheckChunkSize | src/potato_util/io/_sync.py:260-263 | accepted iff chunk_size >= 10 (10 included), and the error carries the value (`_async.py:262-265` checks the same way) |
| Validators.CheckArgumentsPrecedence | src/potato_util/io/_sync.py:48-56 | `CheckArguments`: the path is checked before the warning mode; the checks pass iff both pass, giving the stripped path and the mode |
| Validators.CheckChecksumArgumentsPrecedence | src/potato_util/io/_sync.py:253-266 | `CheckChecksumArguments`: path, then chunk size, then mode: a bad path or a small chunk size is reported whatever the mode |
| AsyncReaders.AsyncAgreesWithSync | src/potato_util/io/_async.py:441-466 | `AsyncReadConfigFile` against `ReadConfigFile`: same FileNotFoundError for a non-file; same reader and result for every recognised suffix except TOML on a binary-TOML interpreter; an unknown suffix is a ValueError naming the lower-cased suffix, where the synchronous one names it as written |
| AsyncReaders.AsyncReadConfigFileIgnoresCase | src/potato_util/io/_async.py:452-461 | a suffix spelling an extension of f in any letter case selects f's asynchronous reader |
| AsyncReaders.AsyncReadersNormalise | src/potato_util/io/_async.py:319-432 | the asynchronous YAML, JSON, text-mode TOML and INI readers: a falsy decoded value becomes `{}`, a truthy one is returned unchanged, a reader fails exactly when its decoder fails, and the INI reader returns the section mapping |
| AsyncReaders.AsyncTomlBinaryAlwaysFails | src/potato_util/io/_async.py:384-393 | on a binary-TOML interpreter every TOML file fails with TypeError, even one the synchronous reader decodes |
| AsyncReaders.AsyncTomlIntendedMatchesSync | src/potato_util/io/_async.py:393 | a TOML reader that decodes the text agrees with the synchronous reader and with the as-written reader on a text-TOML interpreter |

## Left out

- Directory and file side effects (`create_dir`, `remove_dir(s)`, `remove_file(s)` and their asynchronous twins): only their argument checks are modelled. The file-system calls, the warn-mode logging branches and the `OSError`s they raise are not.
- `get_file_checksum` / `async_get_file_checksum`: the hashing is `hashlib` and the chunked read is I/O. Only the argument checks are modelled.
- The format grammars (`yaml.safe_load`, `json.load`, `tomllib`/`toml`, `configparser`) are abstract decoders. Their failures are one `DecodeFailed` error carrying the decoder's message.
- `configparser`'s option-name lower-casing, the DEFAULT section and interpolation are part of the abstract INI decoder.
- `ConfigParser.read(path)` silently skips a file it cannot open. File permissions are not modelled, so every existing file is readable.
- `deep_merge` lives in a module that is not part of this model. It is a parameter assumed total: it never raises, whatever its arguments, even a non-mapping value loaded from a YAML or JSON file holding a list. Nothing else is assumed about it. Should it raise, the exception would be one more failure of `Aggregate` that `AggregateFailsIffSomeFails` and `AggregationErrors` do not list.
- Logging output, `pydantic` call validation (and its coercion of arguments), and `async`/`await` scheduling are not modelled.
- Text encodings: files are text (`string`). The synchronous INI reader's locale encoding and the UTF-8 of the others are not distinguished. Decoding errors count as decoder failures.
- Paths are taken to be normalised: no trailing '/', no '.' or '..' components, no repeated separators. `pathlib.Path`'s normalisation of such paths is not modelled.
- Glob metacharacters (`*`, `?`, `[`) inside a directory name, which `glob` would interpret, are not modelled. Directory names are taken literally.
- Discovery.GlobInMember: the pattern is matched against names exactly as listed. Case-insensitive file systems are not modelled.
- Validators.ParseWarnModeAnyCase: covers ASCII letter case only. DOTLESS I and LONG S, which `str.upper` maps to 'I' and 'S', are handled by `Upper` but not named in this lemma.
- Text.Upper: multi-character upper-case expansions are not modelled. `str.upper` turns ß into SS, ﬀ into FF, ﬁ into FI, ﬂ into FL, ﬃ into FFI, ﬄ into FFL and ﬅ/ﬆ into ST; `UpperChar` leaves these characters unchanged, so `Upper` keeps the length where Python's does not. No mode name contains any of these letter sequences, so the mode chosen is unaffected; only the text carried by `UnknownWarnMode` can differ. Single-letter upper-case mappings of non-ASCII letters (é to É, ω to Ω, я to Я and the like) are not modelled either: `UpperChar` leaves them unchanged. No mode name contains a non-ASCII letter, so these too only change the text carried by `UnknownWarnMode`.
- Text.Lower: non-ASCII characters that do not map to an ASCII letter are left unchanged. This only affects the text of error messages, never which format or mode is selected.
- ConfigReaders.IniOneKeyPerSection: requires distinct section names. `ConfigParser.sections()` returns the keys of the parser's section dict, so its names are always distinct; the abstract INI decoder does not promise this, hence the precondition. Without it `FromPairsLastWins` still gives the last section's items.
- Dict keys are strings, and YAML/TOML dates and times are an opaque always-true `Timestamp`. Floating-point NaN and infinities are not modelled (`Float` is a `real`).
- The `WarnEnum` and `ConfigFileFormatEnum` definitions and `MAX_PATH_LENGTH` are in a constants module that is not part of this model. The mode values are taken from the helpers' docstrings ('ERROR', 'ALWAYS', 'DEBUG', 'IGNORE'), and `MAX_PATH_LENGTH` is a parameter.
- `remove_dirs` / `remove_files` only loop over `remove_dir` / `remove_file` and are not modelled.

## Findings

| source | as written | input that shows it | evidently intended | confidence | as-written member | corrected member |
|---|---|---|---|---|---|---|
| src/potato_util/io/_async.py:384-393 | on Python 3.11 and later the TOML file is opened in binary mode and the bytes are passed to `tomllib.loads`, which accepts only `str` and raises TypeError | any existing `a.toml`, e.g. one containing `x = 1`, read by `async_read_config_file` on Python 3.11 | read the file as text, or call `tomllib.load` on the binary file as the synchronous reader does | high; not executed | AsyncReaders.AsyncTomlBinaryAlwaysFails | AsyncReaders.AsyncTomlIntendedMatchesSync |

`AsyncReadConfigFile` keeps the as-written reader so that it matches the
source. The intended reader `AsyncReadTomlFileIntended` equals the as-written
reader with `binaryToml` false.
