/** The single-file readers of `potato_util.io._sync` and the suffix
    dispatch of `read_config_file`. The format grammars are third-party
    decoders and appear here as the fields of `Codecs`. */
module ConfigReaders {
  import opened Text
  import opened Paths
  import opened Wrappers
  import opened Formats
  import opened ConfigValues
  import opened FileSystem
  import opened Errors

  /** What a third-party decoder does with a file's text: a value, or the
      exception it raised. */
  datatype Decoded<+T> = Decoded(value: T) | Malformed(reason: string)

  /** One section as `ConfigParser.sections()` / `items(section)` report it. */
  datatype IniSection = IniSection(name: string, items: seq<(string, string)>)

  /** The decoders: `yaml.safe_load`, `json.load`, `tomllib.load` (or
      `toml.load`) and a `ConfigParser` read followed by its section listing. */
  datatype Codecs = Codecs(
    yaml: string -> Decoded<Value>,
    json: string -> Decoded<Value>,
    toml: string -> Decoded<Value>,
    ini: string -> Decoded<seq<IniSection>>)

  function DecoderFor(codecs: Codecs, f: Format): string -> Decoded<Value>
    requires f != Ini
  {
    match f
    case Yaml => codecs.yaml
    case Json => codecs.json
    case Toml => codecs.toml
  }

  /** `read_yaml_file`, `read_json_file`, `read_toml_file`: a missing file is
      FileNotFoundError, a decoder exception propagates, and a falsy decoded
      value becomes `{}`. */
  function ReadDecodedFile(fs: Fs, path: Path, f: Format, decode: string -> Decoded<Value>): Result<Value>
  {
    if !IsFile(fs, path) then Err(FileNotFound(path))
    else match decode(fs[path].content)
      case Malformed(reason) => Err(DecodeFailed(path, f, reason))
      case Decoded(v) => Ok(OrEmpty(v))
  }

  /** Python's `dict(pairs)`: later pairs overwrite earlier ones. */
  function FromPairs<K, V>(pairs: seq<(K, V)>): map<K, V>
  {
    if pairs == [] then map[]
    else FromPairs(pairs[..|pairs| - 1])[pairs[|pairs| - 1].0 := pairs[|pairs| - 1].1]
  }

  /** A key is present exactly when some pair carries it. */
  lemma {:induction false} FromPairsKeys<K, V>(pairs: seq<(K, V)>)
    ensures forall k :: k in FromPairs(pairs) <==> exists i :: 0 <= i < |pairs| && pairs[i].0 == k
  {
    if pairs != [] {
      var init := pairs[..|pairs| - 1];
      FromPairsKeys(init);
      forall k ensures k in FromPairs(pairs) <==> exists i :: 0 <= i < |pairs| && pairs[i].0 == k {
        if k in FromPairs(init) && k != pairs[|pairs| - 1].0 {
          var i :| 0 <= i < |init| && init[i].0 == k;
          assert pairs[i].0 == k;
        }
        if exists i :: 0 <= i < |pairs| && pairs[i].0 == k {
          var i :| 0 <= i < |pairs| && pairs[i].0 == k;
          if i < |init| { assert init[i].0 == k; }
        }
      }
    }
  }

  /** A pair whose key does not occur later gives that key's value. */
  lemma {:induction false} FromPairsLastValue<K, V>(pairs: seq<(K, V)>, i: nat)
    requires i < |pairs|
    requires forall j :: i < j < |pairs| ==> pairs[j].0 != pairs[i].0
    ensures pairs[i].0 in FromPairs(pairs) && FromPairs(pairs)[pairs[i].0] == pairs[i].1
    decreases |pairs|
  {
    var init := pairs[..|pairs| - 1];
    if i < |init| {
      assert init[i] == pairs[i];
      forall j | i < j < |init| ensures init[j].0 != init[i].0 {
        assert init[j] == pairs[j];
      }
      FromPairsLastValue(init, i);
    }
  }

  /** `dict(pairs)`: a key is present exactly when some pair carries it, and
      it maps to the value of the last such pair. */
  lemma FromPairsLastWins<K, V>(pairs: seq<(K, V)>)
    ensures forall k :: k in FromPairs(pairs) <==> exists i :: 0 <= i < |pairs| && pairs[i].0 == k
    ensures forall i :: 0 <= i < |pairs| && (forall j :: i < j < |pairs| ==> pairs[j].0 != pairs[i].0)
               ==> pairs[i].0 in FromPairs(pairs) && FromPairs(pairs)[pairs[i].0] == pairs[i].1
  {
    FromPairsKeys(pairs);
    forall i | 0 <= i < |pairs| && (forall j :: i < j < |pairs| ==> pairs[j].0 != pairs[i].0)
      ensures pairs[i].0 in FromPairs(pairs) && FromPairs(pairs)[pairs[i].0] == pairs[i].1
    {
      FromPairsLastValue(pairs, i);
    }
  }

  /** `dict(config_parser.items(section))`: every value is a string. */
  function ItemsToDict(items: seq<(string, string)>): map<string, Value>
  {
    FromPairs(seq(|items|, i requires 0 <= i < |items| => (items[i].0, Str(items[i].1))))
  }

  function SectionPairs(sections: seq<IniSection>): seq<(string, Value)>
  {
    seq(|sections|, i requires 0 <= i < |sections| =>
      (sections[i].name, Dict(ItemsToDict(sections[i].items))))
  }

  /** The mapping the INI readers build: `config[section] = dict(items)` for
      each section in turn. */
  function IniToConfig(sections: seq<IniSection>): map<string, Value>
  {
    FromPairs(SectionPairs(sections))
  }

  /** The loop of `read_ini_file` that fills `_config` section by section. */
  method ShapeIni(sections: seq<IniSection>) returns (config: map<string, Value>)
    ensures config == IniToConfig(sections)
  {
    config := map[];
    ghost var pairs := SectionPairs(sections);
    for i := 0 to |sections|
      invariant config == FromPairs(pairs[..i])
    {
      assert pairs[..i + 1][..i] == pairs[..i];
      config := config[sections[i].name := Dict(ItemsToDict(sections[i].items))];
    }
    assert pairs[..|sections|] == pairs;
  }

  predicate DistinctNames(sections: seq<IniSection>)
  {
    forall i, j :: 0 <= i < j < |sections| ==> sections[i].name != sections[j].name
  }

  /** With distinct section names (as a strict parser guarantees) the INI
      mapping has exactly one key per section, holding a dict of that
      section's items, and an empty section holds an empty dict. */
  lemma IniOneKeyPerSection(sections: seq<IniSection>)
    requires DistinctNames(sections)
    ensures IniToConfig(sections).Keys == set i | 0 <= i < |sections| :: sections[i].name
    ensures |IniToConfig(sections)| == |sections|
    ensures forall i :: 0 <= i < |sections| ==>
              IniToConfig(sections)[sections[i].name] == Dict(ItemsToDict(sections[i].items))
    ensures forall i :: 0 <= i < |sections| && sections[i].items == [] ==>
              IniToConfig(sections)[sections[i].name] == EMPTY_DICT
  {
    IniKeysAreNames(sections);
    NamesCount(sections);
    forall i | 0 <= i < |sections|
      ensures IniToConfig(sections)[sections[i].name] == Dict(ItemsToDict(sections[i].items))
    {
      IniSectionValue(sections, i);
    }
  }

  /** The keys of the INI mapping are the section names. */
  lemma IniKeysAreNames(sections: seq<IniSection>)
    ensures IniToConfig(sections).Keys == set i | 0 <= i < |sections| :: sections[i].name
  {
    var pairs := SectionPairs(sections);
    FromPairsKeys(pairs);
    var names := set i | 0 <= i < |sections| :: sections[i].name;
    forall k ensures k in IniToConfig(sections) <==> k in names {
      if k in IniToConfig(sections) {
        var i :| 0 <= i < |pairs| && pairs[i].0 == k;
        assert sections[i].name == k;
      }
      if k in names {
        var i :| 0 <= i < |sections| && sections[i].name == k;
        assert pairs[i].0 == k;
      }
    }
  }

  /** A section whose name no later section repeats keeps its own items. */
  lemma IniSectionValue(sections: seq<IniSection>, i: nat)
    requires DistinctNames(sections) && i < |sections|
    ensures sections[i].name in IniToConfig(sections)
    ensures IniToConfig(sections)[sections[i].name] == Dict(ItemsToDict(sections[i].items))
  {
    var pairs := SectionPairs(sections);
    forall j | i < j < |pairs| ensures pairs[j].0 != pairs[i].0 {
      assert pairs[j].0 == sections[j].name;
    }
    FromPairsLastValue(pairs, i);
  }


  /** Distinct names: as many names as sections. */
  lemma {:induction false} NamesCount(sections: seq<IniSection>)
    requires DistinctNames(sections)
    ensures |set i | 0 <= i < |sections| :: sections[i].name| == |sections|
  {
    if sections != [] {
      var init := sections[..|sections| - 1];
      NamesCount(init);
      NamesSnoc(sections);
    }
  }

  /** The names of a non-empty list are those of all but its last section,
      plus a last name that is new. */
  lemma NamesSnoc(sections: seq<IniSection>)
    requires DistinctNames(sections) && sections != []
    ensures var init := sections[..|sections| - 1];
            var before := set i | 0 <= i < |init| :: init[i].name;
            && (set i | 0 <= i < |sections| :: sections[i].name) == before + {sections[|sections| - 1].name}
            && sections[|sections| - 1].name !in before
  {
    var init := sections[..|sections| - 1];
    var last := sections[|sections| - 1].name;
    var before := set i | 0 <= i < |init| :: init[i].name;
    var all := set i | 0 <= i < |sections| :: sections[i].name;
    forall k | k in all ensures k in before + {last} {
      var i :| 0 <= i < |sections| && sections[i].name == k;
      if i < |init| { assert init[i].name == k; }
    }
    forall k | k in before ensures k in all && k != last {
      var i :| 0 <= i < |init| && init[i].name == k;
      assert sections[i].name == k;
    }
  }

  /** A property every pair's value has holds of every value of the dict. */
  lemma {:induction false} FromPairsValues<K, V>(pairs: seq<(K, V)>, P: V -> bool)
    requires forall i :: 0 <= i < |pairs| ==> P(pairs[i].1)
    ensures forall k :: k in FromPairs(pairs) ==> P(FromPairs(pairs)[k])
  {
    if pairs != [] {
      var init := pairs[..|pairs| - 1];
      forall i | 0 <= i < |init| ensures P(init[i].1) {
        assert init[i] == pairs[i];
      }
      FromPairsValues(init, P);
    }
  }

  /** A dict whose values are all strings. */
  predicate IsStringDict(v: Value)
  {
    v.Dict? && forall key :: key in v.entries ==> v.entries[key].Str?
  }

  lemma ItemsAreStrings(items: seq<(string, string)>)
    ensures IsStringDict(Dict(ItemsToDict(items)))
  {
    var itemPairs := seq(|items|, n requires 0 <= n < |items| => (items[n].0, Str(items[n].1)));
    FromPairsValues(itemPairs, (v: Value) => v.Str?);
  }

  /** Every value of an INI mapping is a dict whose values are all strings. */
  lemma IniIsTwoLevel(sections: seq<IniSection>)
    ensures forall k :: k in IniToConfig(sections) ==> IsStringDict(IniToConfig(sections)[k])
  {
    var pairs := SectionPairs(sections);
    forall i | 0 <= i < |pairs| ensures IsStringDict(pairs[i].1) {
      ItemsAreStrings(sections[i].items);
    }
    FromPairsValues(pairs, IsStringDict);
  }

  /** `read_ini_file`: a missing file is FileNotFoundError, a parser exception
      propagates, and otherwise every section becomes a top-level key. */
  function ReadIniFile(fs: Fs, path: Path, codecs: Codecs): Result<Value>
  {
    if !IsFile(fs, path) then Err(FileNotFound(path))
    else match codecs.ini(fs[path].content)
      case Malformed(reason) => Err(DecodeFailed(path, Ini, reason))
      case Decoded(sections) => Ok(Dict(IniToConfig(sections)))
  }

  /** The reader the loader calls for a format. */
  function ReadAs(fs: Fs, path: Path, f: Format, codecs: Codecs): Result<Value>
  {
    if f == Ini then ReadIniFile(fs, path, codecs)
    else ReadDecodedFile(fs, path, f, DecoderFor(codecs, f))
  }

  /** Every reader of an existing file replaces a falsy decoder result by
      `{}` and returns a truthy one unchanged, fails exactly when its decoder
      fails, and the INI reader gives the section mapping. */
  lemma ReadAsNormalises(fs: Fs, path: Path, f: Format, codecs: Codecs)
    requires IsFile(fs, path)
    ensures f != Ini ==>
              (DecoderFor(codecs, f)(fs[path].content).Decoded? <==> ReadAs(fs, path, f, codecs).Ok?)
    ensures f != Ini && ReadAs(fs, path, f, codecs).Ok? ==>
              && ReadAs(fs, path, f, codecs).value == OrEmpty(DecoderFor(codecs, f)(fs[path].content).value)
              && (Truthy(DecoderFor(codecs, f)(fs[path].content).value) ==>
                    ReadAs(fs, path, f, codecs).value == DecoderFor(codecs, f)(fs[path].content).value)
              && (!Truthy(DecoderFor(codecs, f)(fs[path].content).value) ==>
                    ReadAs(fs, path, f, codecs).value == EMPTY_DICT)
    ensures f == Ini ==>
              (codecs.ini(fs[path].content).Decoded? <==> ReadAs(fs, path, f, codecs).Ok?)
    ensures f == Ini && codecs.ini(fs[path].content).Decoded? ==>
              ReadAs(fs, path, f, codecs) == Ok(Dict(IniToConfig(codecs.ini(fs[path].content).value)))
  {
  }

  /** `read_config_file`: existence first, then the lower-cased suffix picks
      a reader; an unrecognised suffix is a ValueError naming the suffix as
      written. */
  function ReadConfigFile(fs: Fs, path: Path, codecs: Codecs): Result<Value>
  {
    if !IsFile(fs, path) then Err(FileNotFound(path))
    else match FormatOfSuffix(Lower(Suffix(path)))
      case None => Err(UnsupportedFormat(Suffix(path), path))
      case Some(f) => ReadAs(fs, path, f, codecs)
  }

  /** The outcomes of `read_config_file`, error precedence first: a path that
      is not a regular file is FileNotFoundError whatever its suffix; an
      unrecognised suffix on an existing file is a ValueError naming the suffix
      in its original case; a decoder failure is reported against the format
      the suffix selected; and a value returned is never falsy unless it is `{}`. */
  lemma ReadConfigFileOutcomes(fs: Fs, path: Path, codecs: Codecs)
    ensures !IsFile(fs, path) ==> ReadConfigFile(fs, path, codecs) == Err(FileNotFound(path))
    ensures IsFile(fs, path) && FormatOfSuffix(Lower(Suffix(path))) == None ==>
              ReadConfigFile(fs, path, codecs) == Err(UnsupportedFormat(Suffix(path), path))
    ensures ReadConfigFile(fs, path, codecs).Ok? ==>
              IsFile(fs, path) && FormatOfSuffix(Lower(Suffix(path))).Some?
              && Normalised(ReadConfigFile(fs, path, codecs).value)
    ensures IsFile(fs, path) && FormatOfSuffix(Lower(Suffix(path))).Some? && ReadConfigFile(fs, path, codecs).Err? ==>
              ReadConfigFile(fs, path, codecs).error.DecodeFailed?
    ensures ReadConfigFile(fs, path, codecs).Err? && ReadConfigFile(fs, path, codecs).error.DecodeFailed? ==>
              Some(ReadConfigFile(fs, path, codecs).error.format) == FormatOfSuffix(Lower(Suffix(path)))
              && ReadConfigFile(fs, path, codecs).error.path == path
  {
    if IsFile(fs, path) && FormatOfSuffix(Lower(Suffix(path))).Some? {
      var f := FormatOfSuffix(Lower(Suffix(path))).value;
      if f != Ini {
        var d := DecoderFor(codecs, f)(fs[path].content);
        if d.Decoded? { OrEmptyNormalises(d.value); }
      }
    }
  }

  /** Letter case in the suffix does not matter: a file whose suffix spells
      one of a format's extensions in any case (`X.YML`, `a.Json`) is read by
      that format's reader. */
  lemma ReadConfigFileIgnoresCase(fs: Fs, path: Path, codecs: Codecs, f: Format, e: string)
    requires IsFile(fs, path)
    requires e in GlobExtensions(f) && EqualsIgnoringCase(Suffix(path), "." + e)
    ensures ReadConfigFile(fs, path, codecs) == ReadAs(fs, path, f, codecs)
  {
    DispatchMatchesGlobTable(Suffix(path), f);
  }
}
