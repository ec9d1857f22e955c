/**
 The artifact-name parser of the forwarder (`parse_artifact`): a file name
 requested by conda becomes a package identity and the OCI tag under which
 the mirror stores it. Repodata indexes (`repodata.json`, `repodata.json.zst`,
 ...) all live under the tag `latest`; package files
 `<name>-<version>-<build>.tar.bz2` and `<name>-<version>-<build>.conda` live
 under the tag `<version>-<build>`.
 */
module Artifact {
  import opened Wrappers
  import opened Text

  const RepodataName := "repodata.json"
  const RepodataTag := "latest"
  /** The package suffixes, in the order they are tried. */
  const PackageSuffixes: seq<string> := [".tar.bz2", ".conda"]

  /** The dictionary `parse_artifact` returns; `None` for the absent version and build. */
  datatype Parsed = Parsed(
    artifact: string,
    packageName: string,
    version: Option<string>,
    build: Option<string>,
    extension: string,
    tag: string)

  /** The two `ValueError`s: no known suffix, or too few fields to unpack. */
  datatype ParseError = UnsupportedExtension | NotEnoughFields(got: nat)

  /** The first suffix in `suffixes` that `s` ends with. */
  function MatchedSuffix(s: string, suffixes: seq<string>): (r: Option<string>)
    ensures r.Some? ==> exists i :: 0 <= i < |suffixes| && suffixes[i] == r.value &&
                         EndsWith(s, suffixes[i]) &&
                         forall j :: 0 <= j < i ==> !EndsWith(s, suffixes[j])
    ensures r.None? <==> forall j :: 0 <= j < |suffixes| ==> !EndsWith(s, suffixes[j])
  {
    if |suffixes| == 0 then None
    else if EndsWith(s, suffixes[0]) then Some(suffixes[0])
    else
      var r := MatchedSuffix(s, suffixes[1..]);
      assert forall j :: 1 <= j < |suffixes| ==> suffixes[j] == suffixes[1..][j - 1];
      r
  }

  /** `s` without its last `n` characters (`s[:-n]`, for `n > 0`). */
  function DropLast(s: string, n: nat): (r: string)
    requires n <= |s|
    ensures |r| == |s| - n
    ensures r + s[|r|..] == s
  {
    s[..|s| - n]
  }

  /** No name ends in both package suffixes, so their order never matters. */
  lemma SuffixesExclusive(s: string)
    ensures !(EndsWith(s, ".tar.bz2") && EndsWith(s, ".conda"))
  {
    if EndsWith(s, ".tar.bz2") {
      assert s[|s| - 1] == '2';
    }
  }

  /** Every repodata name holds a dot, so its extension is what follows the last one. */
  lemma RepodataHasDot(artifact: string)
    requires StartsWith(artifact, RepodataName)
    ensures '.' in artifact
  {
    assert artifact[8] == artifact[..|RepodataName|][8] == RepodataName[8] == '.';
  }

  /**
   The package branch after the suffix `ext` is removed: `stem.rsplit("-", 2)`
   unpacked into name, version and build.
   */
  function SplitStem(stem: string, ext: string): (r: Result<Parsed, ParseError>)
    ensures r.Err? <==> AtMostOnce(stem, '-')
    ensures r.Err? ==> r.error.NotEnoughFields?
    ensures r.Ok? ==>
              var p := r.value;
              p.artifact == stem && p.extension == ext &&
              p.version.Some? && p.build.Some? &&
              stem == p.packageName + "-" + p.version.value + "-" + p.build.value &&
              '-' !in p.version.value && '-' !in p.build.value &&
              p.tag == p.version.value + "-" + p.build.value
  {
    var parts := RSplit(stem, '-', 2);
    RSplitThreeFields(stem, '-');
    if |parts| < 3 then Err(NotEnoughFields(|parts|))
    else
      assert parts[..2][..1] == [parts[0]] && parts[..2] == [parts[0], parts[1]];
      Ok(Parsed(stem, parts[0], Some(parts[1]), Some(parts[2]), ext, parts[1] + "-" + parts[2]))
  }

  /**
   What `parse_artifact(artifact)` returns or raises. The lemmas below state
   what the result means.
   */
  function Parse(artifact: string): (r: Result<Parsed, ParseError>)
    // a repodata name is never refused
    ensures StartsWith(artifact, RepodataName) ==> r.Ok?
    // the tag is `latest` without version and build, or version-build with both
    ensures r.Ok? ==>
              (r.value.tag == RepodataTag && r.value.version == None && r.value.build == None) ||
              (r.value.version.Some? && r.value.build.Some? &&
               r.value.tag == r.value.version.value + "-" + r.value.build.value)
  {
    if StartsWith(artifact, RepodataName) then
      Ok(Parsed(artifact, RepodataName, None, None, AfterLast(artifact, '.'), RepodataTag))
    else
      match MatchedSuffix(artifact, PackageSuffixes)
      case None => Err(UnsupportedExtension)
      case Some(ext) => SplitStem(DropLast(artifact, |ext|), ext)
  }

  /**
   A name starting with `repodata.json` is the repodata index: the name is
   kept whole, the tag is `latest`, there is no version or build, and the
   extension is the text after the last dot, without the dot.
   */
  lemma ParseRepodata(artifact: string)
    requires StartsWith(artifact, RepodataName)
    ensures Parse(artifact).Ok?
    ensures var p := Parse(artifact).value;
            p.artifact == artifact && p.packageName == RepodataName &&
            p.version == None && p.build == None && p.tag == RepodataTag &&
            '.' !in p.extension && EndsWith(artifact, ['.'] + p.extension)
  {
    RepodataHasDot(artifact);
  }

  /** Any other name is refused unless it ends in `.tar.bz2` or `.conda`. */
  lemma ParseRejectsUnknownSuffix(artifact: string)
    requires !StartsWith(artifact, RepodataName)
    ensures Parse(artifact) == Err(UnsupportedExtension) <==>
              !EndsWith(artifact, ".tar.bz2") && !EndsWith(artifact, ".conda")
  {
    assert PackageSuffixes[0] == ".tar.bz2" && PackageSuffixes[1] == ".conda";
  }

  /**
   A package name with a known suffix is refused exactly when what is left
   after removing the suffix holds fewer than two dashes.
   */
  lemma ParseNeedsTwoDashes(artifact: string, ext: string)
    requires !StartsWith(artifact, RepodataName)
    requires ext in PackageSuffixes && EndsWith(artifact, ext)
    ensures Parse(artifact).Err? <==> AtMostOnce(DropLast(artifact, |ext|), '-')
    ensures Parse(artifact).Err? ==> Parse(artifact).error.NotEnoughFields?
  {
    SuffixesExclusive(artifact);
    assert MatchedSuffix(artifact, PackageSuffixes) == Some(ext);
  }

  /**
   An accepted package name: the suffix is removed and kept as the extension,
   the name, version and build joined by dashes give back what is left, the
   version and build hold no dash, and the tag is version-build.
   */
  lemma ParsePackageRoundTrip(artifact: string)
    requires !StartsWith(artifact, RepodataName)
    requires Parse(artifact).Ok?
    ensures var p := Parse(artifact).value;
            p.extension in PackageSuffixes && p.artifact + p.extension == artifact &&
            p.version.Some? && p.build.Some? &&
            p.artifact == p.packageName + "-" + p.version.value + "-" + p.build.value &&
            '-' !in p.version.value && '-' !in p.build.value &&
            p.tag == p.version.value + "-" + p.build.value
  {
    var ext := MatchedSuffix(artifact, PackageSuffixes).value;
    var stem := DropLast(artifact, |ext|);
    assert Parse(artifact) == SplitStem(stem, ext);
    EndsWithSplit(artifact, ext);
  }

  /**
   `parse_artifact` as written: the suffixes are tried in a loop that stops at
   the first match, and the unpacking of `rsplit("-", 2)` fails on fewer than
   three fields.
   */
  method ParseArtifact(artifact: string) returns (r: Result<Parsed, ParseError>)
    ensures r == Parse(artifact)
  {
    if StartsWith(artifact, RepodataName) {
      return Ok(Parsed(artifact, RepodataName, None, None, AfterLast(artifact, '.'), RepodataTag));
    }
    var stem := artifact;
    var extension: Option<string> := None;
    for i := 0 to |PackageSuffixes|
      invariant forall j :: 0 <= j < i ==> !EndsWith(artifact, PackageSuffixes[j])
    {
      if EndsWith(artifact, PackageSuffixes[i]) {
        extension := Some(PackageSuffixes[i]);
        stem := DropLast(artifact, |PackageSuffixes[i]|);
        assert MatchedSuffix(artifact, PackageSuffixes) == extension;
        break;
      }
    }
    if extension == None {
      return Err(UnsupportedExtension);
    }
    var parts := RSplit(stem, '-', 2);
    if |parts| != 3 {
      return Err(NotEnoughFields(|parts|));
    }
    var packageName, version, build := parts[0], parts[1], parts[2];
    r := Ok(Parsed(stem, packageName, Some(version), Some(build), extension.value, version + "-" + build));
  }

  /**
   Round trip the other way: a package file name put together from a name,
   a dash-free version and build, and a suffix parses back into exactly those.
   */
  lemma ParseOfPackageFileName(
    artifact: string, name: string, version: string, build: string, ext: string)
    requires artifact == name + "-" + version + "-" + build + ext
    requires ext in PackageSuffixes
    requires '-' !in version && '-' !in build
    requires !StartsWith(artifact, RepodataName)
    ensures Parse(artifact) ==
              Ok(Parsed(name + "-" + version + "-" + build, name, Some(version), Some(build),
                        ext, version + "-" + build))
  {
    var stem := name + "-" + version + "-" + build;
    assert artifact == stem + ext;
    assert EndsWith(artifact, ext);
    SuffixesExclusive(artifact);
    assert MatchedSuffix(artifact, PackageSuffixes) == Some(ext);
    assert DropLast(artifact, |ext|) == stem;
    RSplitOfThree(name, version, build, '-');
  }

  /** `repodata.json.zst` is the compressed index under tag `latest`, extension `zst`. */
  lemma CompressedRepodataExample()
    ensures Parse("repodata.json.zst") ==
              Ok(Parsed("repodata.json.zst", "repodata.json", None, None, "zst", "latest"))
  {
    var s := "repodata.json.zst";
    assert s[..|RepodataName|] == RepodataName;
    assert s[14..] == "zst";
    LastIndexAt(s, '.', 13);
  }

  /** A plain package name: `numpy-1.26.4-py311h_0.conda`. */
  lemma CondaPackageExample()
    ensures Parse("numpy-1.26.4-py311h_0.conda") ==
              Ok(Parsed("numpy-1.26.4-py311h_0", "numpy", Some("1.26.4"), Some("py311h_0"),
                        ".conda", "1.26.4-py311h_0"))
  {
    var s, name, version, build := "numpy-1.26.4-py311h_0.conda", "numpy", "1.26.4", "py311h_0";
    assert '-' !in version && '-' !in build;
    assert s == name + "-" + version + "-" + build + ".conda";
    assert s[0] == 'n';
    assert name + "-" + version + "-" + build == "numpy-1.26.4-py311h_0";
    assert version + "-" + build == "1.26.4-py311h_0";
    ParseOfPackageFileName(s, name, version, build, ".conda");
  }

  /** Only the two rightmost dashes split: `my-pkg-name-1.0.0-0.tar.bz2`. */
  lemma DashedNameExample()
    ensures Parse("my-pkg-name-1.0.0-0.tar.bz2") ==
              Ok(Parsed("my-pkg-name-1.0.0-0", "my-pkg-name", Some("1.0.0"), Some("0"),
                        ".tar.bz2", "1.0.0-0"))
  {
    var s, name, version, build := "my-pkg-name-1.0.0-0.tar.bz2", "my-pkg-name", "1.0.0", "0";
    assert '-' !in version && '-' !in build;
    assert s == name + "-" + version + "-" + build + ".tar.bz2";
    assert s[0] == 'm';
    assert name + "-" + version + "-" + build == "my-pkg-name-1.0.0-0";
    assert version + "-" + build == "1.0.0-0";
    ParseOfPackageFileName(s, name, version, build, ".tar.bz2");
  }
}
