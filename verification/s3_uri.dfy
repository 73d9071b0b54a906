/** Storage keys from `s3://bucket/key` URIs. */
module S3Uri {
  import opened Wrappers
  import opened Text

  const Scheme: string := "s3://"

  /** A bucket as the pattern accepts it: one or more characters, no slash. */
  predicate IsBucket(b: string) {
    |b| > 0 && '/' !in b
  }

  /** A key as the pattern accepts it: one or more characters, none of them
      a line terminator (the pattern's `.` matches no line terminator). */
  predicate IsKey(k: string) {
    |k| > 0 && NoLineTerminator(k)
  }

  /** The URI naming `key` in `bucket`. */
  function BuildUri(bucket: string, key: string): string {
    Scheme + bucket + "/" + key
  }

  /** The index of the first slash of `s`, if it has one. */
  function FirstSlash(s: string): (r: Option<nat>)
    ensures r.None? ==> '/' !in s
    ensures r.Some? ==> r.value < |s| && s[r.value] == '/' && '/' !in s[..r.value]
  {
    if |s| == 0 then None
    else if s[0] == '/' then Some(0)
    else match FirstSlash(s[1..])
      case None => None
      case Some(i) => Some(i + 1)
  }

  /** The key of an `s3://bucket/key` URI; any other text comes back
      unchanged. A changed result is the key of a well-formed URI. */
  function S3UriToKey(uri: string): (r: string)
    ensures r != uri ==>
      && IsKey(r)
      && |Scheme| + |r| + 1 < |uri|
      && IsBucket(uri[|Scheme|..|uri| - |r| - 1])
      && uri == BuildUri(uri[|Scheme|..|uri| - |r| - 1], r)
  {
    if !StartsWith(uri, Scheme) then uri
    else
      var rest := uri[|Scheme|..];
      match FirstSlash(rest)
      case None => uri
      case Some(i) =>
        var key := rest[i + 1..];
        if i > 0 && IsKey(key) then
          assert uri == Scheme + rest[..i] + "/" + key;
          key
        else uri
  }

  /** A well-formed URI gives back exactly the key it was built from. */
  lemma S3UriToKeyRoundTrip(bucket: string, key: string)
    requires IsBucket(bucket) && IsKey(key)
    ensures S3UriToKey(BuildUri(bucket, key)) == key
  {
    var uri := BuildUri(bucket, key);
    var rest := uri[|Scheme|..];
    assert StartsWith(uri, Scheme);
    assert rest == bucket + "/" + key;
    assert rest[|bucket|] == '/';
    assert rest[..|bucket|] == bucket;
    assert FirstSlash(rest) == Some(|bucket|);
    assert rest[|bucket| + 1..] == key;
  }

  /** Text that no bucket and key build is returned unchanged. */
  lemma S3UriToKeyUnmatched(uri: string)
    requires forall b, k :: IsBucket(b) && IsKey(k) ==> uri != BuildUri(b, k)
    ensures S3UriToKey(uri) == uri
  {
  }

  /** A well-formed URI loses its scheme and bucket. */
  lemma S3UriToKeyStripsBucket()
    ensures S3UriToKey("s3://bucket/photos/a.png") == "photos/a.png"
  {
    assert Scheme + "bucket" + "/" + "photos/a.png" == "s3://bucket/photos/a.png";
    S3UriToKeyRoundTrip("bucket", "photos/a.png");
  }

  /** An empty bucket does not match the pattern. */
  lemma S3UriToKeyNeedsBucket()
    ensures S3UriToKey("s3:///a.png") == "s3:///a.png"
  {
    assert "s3:///a.png"[|Scheme|..] == "/a.png";
    assert FirstSlash("/a.png") == Some(0);
  }

  /** An empty key does not match the pattern. */
  lemma S3UriToKeyNeedsKey()
    ensures S3UriToKey("s3://bucket/") == "s3://bucket/"
  {
    assert "s3://bucket/"[|Scheme|..] == "bucket/";
    assert FirstSlash("bucket/") == Some(6);
    assert "bucket/"[6 + 1..] == "";
  }
}
