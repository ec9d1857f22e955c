/**
 Layer selection (the first half of `get_download_response`): the conda media
 type the requested file must have, and the scan of the OCI image manifest's
 `layers` for the first descriptor of that media type, whose digest is the
 blob to fetch.
 */
module Layers {
  import opened Wrappers
  import opened Text
  import opened Artifact

  const RepodataZstMediaType := "application/vnd.conda.repodata.v1+json+zst"
  const RepodataMediaType := "application/vnd.conda.repodata.v1+json"
  const PackageV1MediaType := "application/vnd.conda.package.v1"
  const PackageV2MediaType := "application/vnd.conda.package.v2"

  /** A content descriptor of an OCI image manifest: only the two fields used here. */
  datatype Descriptor = Descriptor(mediaType: string, digest: string)

  /** An OCI image manifest, reduced to its `layers` list, in registry order. */
  datatype Manifest = Manifest(layers: seq<Descriptor>)

  /** What the blob request is made with: the digest in the URL, the media type as `Accept`. */
  datatype BlobRequest = BlobRequest(digest: string, accept: string)

  /** The `ValueError` raised when no layer has the media type; it names the extension. */
  datatype LayerError = LayerNotFound(extension: string)

  predicate IsRepodataMediaType(mediaType: string) {
    mediaType == RepodataZstMediaType || mediaType == RepodataMediaType
  }

  /**
   The media type a requested file must have: repodata is compressed or plain
   JSON depending on the extension, a `.tar.bz2` package is format v1 and
   anything else is format v2.
   */
  function MediaType(packageName: string, extension: string): (mediaType: string)
    ensures IsRepodataMediaType(mediaType) <==> packageName == RepodataName
    ensures mediaType in {RepodataZstMediaType, RepodataMediaType, PackageV1MediaType, PackageV2MediaType}
  {
    if packageName == RepodataName then
      if extension in [".zst", "zst"] then RepodataZstMediaType else RepodataMediaType
    else if extension == ".tar.bz2" then PackageV1MediaType
    else PackageV2MediaType
  }

  /**
   The media type of a repodata name: compressed repodata exactly for the
   extension `zst` (the extension never holds a dot, so `.zst` cannot occur),
   plain repodata for every other one.
   */
  lemma RepodataMediaTypeOfParsed(artifact: string)
    requires StartsWith(artifact, RepodataName)
    ensures Parse(artifact).Ok?
    ensures var p := Parse(artifact).value;
            MediaType(p.packageName, p.extension) ==
              if p.extension == "zst" then RepodataZstMediaType else RepodataMediaType
  {
    ParseRepodata(artifact);
    assert ".zst"[0] == '.';
  }

  /** The package rows of the table: v1 for `.tar.bz2`, v2 for `.conda`. */
  lemma PackageMediaType(packageName: string, extension: string)
    requires packageName != RepodataName && extension in PackageSuffixes
    ensures (extension == ".tar.bz2" && MediaType(packageName, extension) == PackageV1MediaType) ||
            (extension == ".conda" && MediaType(packageName, extension) == PackageV2MediaType)
  {
    assert PackageSuffixes == [".tar.bz2", ".conda"];
  }

  /**
   The media type of a package name that parsed: v1 for `.tar.bz2` and v2 for
   `.conda`. A package name never equals `repodata.json` (the file name would
   then start with it), so a package is never given a repodata media type.
   */
  lemma PackageMediaTypeOfParsed(artifact: string)
    requires !StartsWith(artifact, RepodataName)
    requires Parse(artifact).Ok?
    ensures var p := Parse(artifact).value;
            p.packageName != RepodataName &&
            ((p.extension == ".tar.bz2" && MediaType(p.packageName, p.extension) == PackageV1MediaType) ||
             (p.extension == ".conda" && MediaType(p.packageName, p.extension) == PackageV2MediaType))
  {
    ParsePackageRoundTrip(artifact);
    var p := Parse(artifact).value;
    var name, version, build := p.packageName, p.version.value, p.build.value;
    assert artifact == name + "-" + version + "-" + build + p.extension;
    assert StartsWith(name, name);
    StartsWithAppend(name, name, "-");
    StartsWithAppend(name + "-", name, version);
    StartsWithAppend(name + "-" + version, name, "-");
    StartsWithAppend(name + "-" + version + "-", name, build);
    StartsWithAppend(name + "-" + version + "-" + build, name, p.extension);
    PackageMediaType(p.packageName, p.extension);
  }

  /**
   The layer lookup of `get_download_response`: the digest of the first layer,
   in manifest order, whose media type is exactly the one the file needs, and
   the media type itself for the `Accept` header of the blob request. It fails
   if and only if no layer has that media type.
   */
  method SelectLayer(manifest: Manifest, packageName: string, extension: string)
    returns (r: Result<BlobRequest, LayerError>)
    ensures var mediaType := MediaType(packageName, extension);
            r.Ok? ==> r.value.accept == mediaType &&
                      exists i :: 0 <= i < |manifest.layers| &&
                        manifest.layers[i] == Descriptor(mediaType, r.value.digest) &&
                        forall j :: 0 <= j < i ==> manifest.layers[j].mediaType != mediaType
    ensures var mediaType := MediaType(packageName, extension);
            r.Err? <==> forall i :: 0 <= i < |manifest.layers| ==> manifest.layers[i].mediaType != mediaType
    ensures r.Err? ==> r.error == LayerNotFound(extension)
  {
    var mediaType := MediaType(packageName, extension);
    var layers := manifest.layers;
    var digest: Option<string> := None;
    for i := 0 to |layers|
      invariant forall j :: 0 <= j < i ==> layers[j].mediaType != mediaType
      invariant digest == None
    {
      if layers[i].mediaType == mediaType {
        digest := Some(layers[i].digest);
        assert layers[i] == Descriptor(mediaType, digest.value);
        break;
      }
    }
    if digest == None {
      return Err(LayerNotFound(extension));
    }
    r := Ok(BlobRequest(digest.value, mediaType));
  }
}
