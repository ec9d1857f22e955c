/**
 The request handler (`redirect_to_download`) up to the blob request: parse
 the file name, get a pull token from the cache, get the manifest for the
 name's tag, and pick the layer to fetch. The registry's answers are inputs:
 the token endpoint's response, and the manifest it serves for a channel,
 subdir, package name and tag when presented with a given bearer token (None
 when that request fails, for instance because the shared token was granted
 for another package's scope). Each stage's
 failure ends the request, so later stages are never reached.
 */
module Forwarder {
  import opened Wrappers
  import opened Artifact
  import opened Layers
  import opened PullToken

  datatype ForwardError =
    | BadName(parseError: ParseError)
    | TokenRefused
    | ManifestUnavailable
    | NoMatchingLayer(layerError: LayerError)

  /** The blob request the handler goes on to make, and the token it is authorised with. */
  datatype BlobFetch = BlobFetch(
    channel: string, subdir: string, packageName: string,
    digest: string, accept: string, token: string)

  method PlanDownload(
    cache: PullTokenCache, channel: string, subdir: string, artifact: string,
    tokenResponse: TokenResponse,
    manifests: (string, string, string, string, string) -> Option<Manifest>)
    returns (r: Result<BlobFetch, ForwardError>)
    modifies cache
    // a name that does not parse is refused before the token cache is touched
    ensures Parse(artifact).Err? ==>
              r == Err(BadName(Parse(artifact).error)) && cache.State() == old(cache.State())
    // otherwise exactly one call of the token cache is made
    ensures Parse(artifact).Ok? ==> cache.State() == Call(old(cache.State()), tokenResponse).state
    ensures old(cache.Valid()) ==> cache.Valid()
    ensures Parse(artifact).Ok? && Call(old(cache.State()), tokenResponse).result.Err? ==>
              r == Err(TokenRefused)
    ensures Parse(artifact).Ok? && Call(old(cache.State()), tokenResponse).result.Ok? ==>
              var p := Parse(artifact).value;
              var token := Call(old(cache.State()), tokenResponse).result.value;
              var mediaType := MediaType(p.packageName, p.extension);
              match manifests(channel, subdir, p.packageName, p.tag, token)
              case None => r == Err(ManifestUnavailable)
              case Some(manifest) =>
                (r.Err? <==> forall i :: 0 <= i < |manifest.layers| ==> manifest.layers[i].mediaType != mediaType) &&
                (r.Err? ==> r.error == NoMatchingLayer(LayerNotFound(p.extension))) &&
                (r.Ok? ==> r.value.channel == channel && r.value.subdir == subdir &&
                           r.value.packageName == p.packageName && r.value.token == token &&
                           r.value.accept == mediaType &&
                           exists i :: 0 <= i < |manifest.layers| &&
                             manifest.layers[i] == Descriptor(mediaType, r.value.digest) &&
                             forall j :: 0 <= j < i ==> manifest.layers[j].mediaType != mediaType)
  {
    var parsed := ParseArtifact(artifact);
    if parsed.Err? {
      return Err(BadName(parsed.error));
    }
    var p := parsed.value;
    var token := cache.FetchPullToken(channel, subdir, p.packageName, tokenResponse);
    if token.Err? {
      return Err(TokenRefused);
    }
    var manifest := manifests(channel, subdir, p.packageName, p.tag, token.value);
    if manifest.None? {
      return Err(ManifestUnavailable);
    }
    var layer := SelectLayer(manifest.value, p.packageName, p.extension);
    if layer.Err? {
      return Err(NoMatchingLayer(layer.error));
    }
    r := Ok(BlobFetch(channel, subdir, p.packageName, layer.value.digest, layer.value.accept, token.value));
  }

  /**
   A `.conda` request whose manifest has one v2 layer is sent to that layer's
   digest, with the token just fetched.
   */
  method CondaDownloadExample()
  {
    var cache := new PullTokenCache();
    var layers := [Descriptor(PackageV2MediaType, "sha256:abc")];
    var manifests := (c: string, s: string, n: string, t: string, b: string) => Some(Manifest(layers));
    var artifact := "numpy-1.26.4-py311h_0.conda";
    CondaPackageExample();
    var p := Parse(artifact).value;
    assert p.packageName == "numpy" && p.extension == ".conda";
    assert MediaType(p.packageName, p.extension) == PackageV2MediaType;
    assert Call(Initial, Granted("t0")) == Outcome(CacheState(Some("t0"), 1), Ok("t0"));
    assert manifests("conda-forge", "linux-64", p.packageName, p.tag, "t0") == Some(Manifest(layers));
    var r := PlanDownload(cache, "conda-forge", "linux-64", artifact, Granted("t0"), manifests);
    assert layers[0].mediaType == MediaType(p.packageName, p.extension);
    assert r.Ok? && |layers| == 1;
    assert r == Ok(BlobFetch("conda-forge", "linux-64", "numpy", "sha256:abc", PackageV2MediaType, "t0"));
    assert cache.State() == CacheState(Some("t0"), 1);
  }
}
