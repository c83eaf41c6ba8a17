/** The four configuration formats: the extension globs discovery uses for
    each, and the suffix dispatch of the single-file loader. */
module Formats {
  import opened Text
  import opened Wrappers

  datatype Format = Yaml | Json | Toml | Ini

  /** The `*.<ext>` patterns discovery globs for each format. */
  function GlobExtensions(f: Format): seq<string>
  {
    match f
    case Yaml => ["yaml", "yml"]
    case Json => ["json"]
    case Toml => ["toml"]
    case Ini => ["ini", "cfg"]
  }

  /** The if/elif chain of the loader, applied to an already lower-cased suffix. */
  function FormatOfSuffix(lowered: string): Option<Format>
  {
    if lowered == ".yaml" || lowered == ".yml" then Some(Yaml)
    else if lowered == ".json" then Some(Json)
    else if lowered == ".toml" then Some(Toml)
    else if lowered == ".ini" || lowered == ".cfg" then Some(Ini)
    else None
  }

  lemma GlobExtensionsShape(f: Format, e: string)
    requires e in GlobExtensions(f)
    ensures e != "" && LowerAscii("." + e)
    ensures forall k :: 0 <= k < |e| ==> e[k] != '.' && e[k] != '/'
  {
  }

  /** The dispatch chain read as a table: a lower-cased suffix selects `f`
      exactly when it is "." + one of `f`'s glob extensions. */
  lemma FormatOfSuffixIsGlobTable(lowered: string, f: Format)
    ensures FormatOfSuffix(lowered) == Some(f)
        <==> exists e :: e in GlobExtensions(f) && lowered == "." + e
  {
    assert "." + "yaml" == ".yaml" && "." + "yml" == ".yml";
    assert "." + "json" == ".json" && "." + "toml" == ".toml";
    assert "." + "ini" == ".ini" && "." + "cfg" == ".cfg";
  }

  /** The dispatch chain and the glob table agree: a suffix selects format `f`
      exactly when it spells "." + one of `f`'s extensions in any letter case. */
  lemma DispatchMatchesGlobTable(suffix: string, f: Format)
    ensures FormatOfSuffix(Lower(suffix)) == Some(f)
        <==> exists e :: e in GlobExtensions(f) && EqualsIgnoringCase(suffix, "." + e)
  {
    FormatOfSuffixIsGlobTable(Lower(suffix), f);
    forall e | e in GlobExtensions(f)
      ensures Lower(suffix) == "." + e <==> EqualsIgnoringCase(suffix, "." + e)
    {
      GlobExtensionsShape(f, e);
      LowerEqualsIff(suffix, "." + e);
    }
  }

  /** Every extension of every format dispatches back to that format, so the
      extension sets of distinct formats are disjoint. */
  lemma GlobTableDispatchesBack(f: Format, e: string)
    requires e in GlobExtensions(f)
    ensures FormatOfSuffix("." + e) == Some(f)
  {
    FormatOfSuffixIsGlobTable("." + e, f);
  }
}
