# conda-oci-forwarder, modelled in Dafny

The forwarder lets conda use an OCI registry (GHCR) as if it were a plain
package channel. A request `GET /{channel}/{subdir}/{artifact}` is answered by
parsing the file name into a package identity and an OCI tag, getting a pull
token from a small process-wide cache, fetching the image manifest for the
tag, picking the first layer with the conda media type the file needs, and
redirecting to that blob.

This project models the deterministic part of that pipeline:

- `Text` (`text.dfy`): the Python `str` operations the parser calls
  (`startswith`, `endswith`, `split(sep)[-1]` and `rsplit(sep, n)`), with the
  facts about them the parser needs. Two members are not calls of the parser:
  `LastIndex` (the position of the last separator) is a helper that both
  splits use, and `Join` (`sep.join`) is the inverse by which `RSplit` is
  specified.
- `Artifact` (`artifact.dfy`): `parse_artifact`. `Parse` is the specification
  function. `ParseArtifact` is the code as written, with its loop over the
  suffix tuple. The lemmas state what a parse means: the repodata branch, the
  refusals, and the round trip in both directions.
- `Layers` (`layers.dfy`): the media-type table and the scan of the OCI image
  manifest's `layers` for the first descriptor of that media type.
- `PullToken` (`pull_token.dfy`): `fetch_pull_token`. `Call` is the
  specification of one call on the two globals. `Run` chains calls. The class
  `PullTokenCache` holds the two globals as fields, and its method
  `FetchPullToken` updates them in place. The token endpoint's answer is a
  parameter: a granted token or a failure.
- `Forwarder` (`forwarder.dfy`): the handler's sequence up to the blob
  request. It parses, calls the token cache, takes the manifest for the
  parsed tag and the token just obtained (the registry is a function
  parameter), and selects the layer.
  Each failure stops the request. `CondaDownloadExample` runs one `.conda`
  request end to end against a one-layer manifest.

Where the code and the prose description of the system differ, the model
follows the code:

- The media-type table sends every non-`.tar.bz2` package extension to the v2
  type, not only `.conda`. `PackageMediaTypeOfParsed` shows that only `.conda`
  reaches that row.
- On a refresh, the code resets the counter to 0 and then increments it. It
  increments on every successful call, not only when the token is reused.
  So a refreshed token has been used once.
- Any name starting with `repodata.json` takes the repodata branch, even
  `repodata.json-1-0.conda`. Its extension is then `conda` and its media type
  is plain repodata. `repodata.json` alone has extension `json`.

## Model

| member | source | states |
|---|---|---|
| `Text.StartsWith` | app.py:91 | `s.startswith(prefix)`: `prefix` is no longer than `s` and `s` agrees with it at every one of its positions |
| `Text.EndsWith` | app.py:99 | `s.endswith(suffix)`: `suffix` is no longer than `s` and the last characters of `s`, as many as `suffix` holds, are those of `suffix` |
| `Text.AfterLast` | app.py:96 | `s.split(c)[-1]`: the result holds no `c`, `s` ends with `c` followed by it when `s` holds `c`, and it is all of `s` otherwise |
| `Text.RSplit` | app.py:104 | `s.rsplit(sep, n)`: 1 to n+1 parts, joining them with `sep` gives `s` back, no part after the first holds `sep`, and the first holds none when fewer than n+1 parts come out |
| `Text.RSplitThreeFields` | app.py:104 | `rsplit(sep, 2)` gives three fields exactly when `s` holds `sep` at least twice |
| `Text.RSplitOfThree` | app.py:104 | when the last two fields hold no `sep`, `rsplit(sep, 2)` of `a + sep + b + sep + c` is exactly `[a, b, c]`, so the cut is at the two rightmost separators |
| `Artifact.MatchedSuffix` | app.py:98-103 | the for/else over the suffix tuple: the first suffix, in tuple order, that the name ends with, and None exactly when it ends with none of them |
| `Artifact.DropLast` | app.py:100 | `artifact[: -len(extension)]`: the result is `n` characters shorter, and it followed by the removed tail is the input |
| `Artifact.Parse` | app.py:90-113 | what `parse_artifact` returns or raises: a repodata name is never refused, and an accepted name has tag `latest` with no version and build, or both a version and a build with tag `version-build`; the lemmas below state the rest |
| `Artifact.SuffixesExclusive` | app.py:98-101 | no name ends in both `.tar.bz2` and `.conda`, so the order of the tuple does not change the result |
| `Artifact.SplitStem` | app.py:104-105 | the unpacking of `rsplit("-", 2)` fails exactly when the stem has fewer than two dashes; otherwise name, version and build joined by dashes give the stem, version and build hold no dash, and the tag is `version-build` |
| `Artifact.ParseRepodata` | app.py:91-96 | a name starting with `repodata.json` parses to package `repodata.json`, tag `latest`, no version or build, the unchanged name, and as extension the text after the last dot, without the dot |
| `Artifact.ParseRejectsUnknownSuffix` | app.py:98-103 | any other name is refused with the unsupported-extension error if and only if it ends in neither `.tar.bz2` nor `.conda` |
| `Artifact.ParseNeedsTwoDashes` | app.py:98-104 | a package name with a known suffix is refused, with the not-enough-fields error, if and only if it has fewer than two dashes once the suffix is removed |
| `Artifact.ParsePackageRoundTrip` | app.py:98-111 | an accepted package name: the returned `artifact` plus the extension (a known suffix, dot included) is the input, `name-version-build` is that `artifact`, version and build hold no dash, and the tag is `version-build` |
| `Artifact.ParseOfPackageFileName` | app.py:97-113 | the round trip the other way: a file name `name-version-build` plus a known suffix, with dash-free version and build, parses back into exactly those fields |
| `Artifact.ParseArtifact` | app.py:90-113 | the code as written (suffix loop with break, unpacking of the split) returns exactly what `Parse` specifies, errors included |
| `Artifact.CompressedRepodataExample` | app.py:91-96 | `repodata.json.zst` gives package `repodata.json`, tag `latest`, extension `zst` |
| `Artifact.CondaPackageExample` | app.py:97-112 | `numpy-1.26.4-py311h_0.conda` gives name `numpy`, version `1.26.4`, build `py311h_0`, tag `1.26.4-py311h_0`, extension `.conda` |
| `Artifact.DashedNameExample` | app.py:104-105 | `my-pkg-name-1.0.0-0.tar.bz2` gives name `my-pkg-name`, version `1.0.0`, build `0`: only the two rightmost dashes split |
| `Layers.MediaType` | app.py:62-70 | the chosen media type is one of the four conda types, and it is a repodata type if and only if the package name is `repodata.json` |
| `Layers.RepodataMediaTypeOfParsed` | app.py:62-66 | for a parsed repodata name, the type is the zst one exactly when the extension is `zst`, and plain repodata JSON otherwise |
| `Layers.PackageMediaType` | app.py:67-70 | for a package name and a known suffix, `.tar.bz2` gives package v1 and `.conda` gives package v2 |
| `Layers.PackageMediaTypeOfParsed` | app.py:62-70 | a parsed package name is never `repodata.json`, and its type is v1 for `.tar.bz2` and v2 for `.conda` |
| `Layers.SelectLayer` | app.py:71-76 | the digest of the first layer, in manifest order, whose media type equals the computed one, with no earlier layer matching; the error naming the extension if and only if no layer matches; that media type is the `Accept` of the blob request |
| `PullToken.Call` | app.py:31-44 | after a successful call, the returned token is the one held and the counter is in 1..101, from any prior state; a call fails exactly when it had to fetch and the fetch failed, and then token and counter are unchanged; the reachable states are preserved |
| `PullToken.CachedTokenReused` | app.py:34-44 | when a token is held and the counter is at most 100, the endpoint's answer is ignored, the same token is returned and the counter rises by exactly 1 |
| `PullToken.RefreshRestartsCount` | app.py:34-43 | when no token is held or the counter is above 100, a granted token replaces the old one and the counter restarts, ending the call at 1 |
| `PullToken.Run` | app.py:27-44 | consecutive calls on the shared globals: one result per call, and a call fails only at a position where the endpoint's answer is a failure |
| `PullToken.RunFailsOnlyWhenFetching` | app.py:34-44 | a call in a sequence fails only when the calls before it left a state needing a refresh (no token, or counter above 100) and the endpoint refused |
| `PullToken.RunStaysConsistent` | app.py:27-44 | from a state with no token and counter 0, or a token with counter in 1..101, every sequence of calls keeps that shape |
| `PullToken.HeldTokenServes` | app.py:34-44 | a held token is returned unchanged by every call until its counter reaches 101, and the counter counts those calls |
| `PullToken.TokenLasts101Calls` | app.py:34-44 | a freshly fetched token is returned by 101 consecutive calls, whatever the endpoint would have answered meanwhile; the 102nd call must refresh, and ends with counter 1 or fails with the cache unchanged |
| `PullToken.PullTokenCache.constructor` | app.py:27-28 | the cache starts with no token and counter 0 |
| `PullToken.PullTokenCache.FetchPullToken` | app.py:31-44 | the new token and counter, and the result, are those of `Call` on the old ones; channel, subdir and package name play no part |
| `Forwarder.PlanDownload` | app.py:116-138 | a name that fails to parse is refused before the token cache is touched; otherwise the cache makes one call; a token failure stops the request; the manifest is the one served for the parsed package and tag to the token just obtained, which may have been granted for another scope; the cache stays in its reachable states; the blob request uses the first matching layer's digest, the media type and the token just obtained |

## Left out

- The FastAPI application, its routing and the `lifespan` that opens and
  closes the HTTP client: these are framework plumbing.
- The HTTP requests themselves, with their URLs and headers: the token
  endpoint, the manifest pull and the blob pull. The token endpoint is a
  `TokenResponse` parameter. The manifest pull is a function parameter from
  channel, subdir, package name, tag and bearer token to an optional
  manifest, so a pull refused for a token of the wrong scope is one of its
  failures. The blob
  pull is not modelled.
- The check for a redirect location on the blob response, and the relay of
  its headers into the redirect: both depend on the HTTP library's response
  objects.
- JSON decoding. A token response without a `token` field counts as a failed
  fetch. A manifest is its list of layers, and each layer has a media type and
  a digest. Missing keys, which raise `KeyError` in the code, are not
  modelled.
- Concurrency: the token globals are shared by concurrent requests. The model
  is one sequential cache.
- PullToken.PullTokenCache.FetchPullToken: the token is a string. A JSON
  `null` token, which the code would store as "no token", is not modelled.
