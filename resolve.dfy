/** Splitting a request into bucket name and resource path: virtual-host
    style through a regular expression on the Host header, tried first,
    then path style through a regular expression on the request path. */
module Resolve {

  import opened Wrappers
  import opened PyStr
  import opened Exceptions

  /** The server's own host name. */
  const Hostname: string := "b.tgr.tokyo"

  /** The part of the pattern `(.*).{hostname}` after the group.  The text is
      pasted into the regular expression unescaped, so each `.` in it is a
      wildcard; the other characters are literal. */
  const HostTail: string := "." + Hostname

  /** Regular-expression `.`: any character but a newline. */
  predicate CharMatches(pattern: char, c: char)
  {
    if pattern == '.' then c != '\n' else c == pattern
  }

  /** The tail of the pattern matches `host` from position `k` on.
      `re.match` anchors at the start only, so anything may follow. */
  predicate TailAt(host: string, k: nat)
  {
    k + |HostTail| <= |host| &&
    forall i :: 0 <= i < |HostTail| ==> CharMatches(HostTail[i], host[k + i])
  }

  /** The group `(.*)` can end at `k`: it spans `host[..k]`, which holds no
      newline, and the tail matches right after it. */
  predicate GroupEndsAt(host: string, k: nat)
  {
    k <= |host| && '\n' !in host[..k] && TailAt(host, k)
  }

  /** The backtracking search for the greedy group: the longest candidate first. */
  function GreedyGroupEnd(host: string, k: nat): (r: Option<nat>)
    requires k <= |host|
    ensures r.Some? ==> r.value <= k && GroupEndsAt(host, r.value)
    ensures r.Some? ==> forall j :: r.value < j <= k ==> !GroupEndsAt(host, j)
    ensures r.None? ==> forall j :: 0 <= j <= k ==> !GroupEndsAt(host, j)
    decreases k
  {
    if GroupEndsAt(host, k) then Some(k)
    else if k == 0 then None
    else GreedyGroupEnd(host, k - 1)
  }

  /** `re.match(r'(.*).' + hostname, host).group(1)`, if it matches. */
  function VirtualHostBucket(host: string): (r: Option<string>)
    ensures r.Some? ==> |r.value| <= |host| && r.value == host[..|r.value|] && GroupEndsAt(host, |r.value|)
    ensures r.Some? ==> forall k :: |r.value| < k <= |host| ==> !GroupEndsAt(host, k)
    ensures r.None? <==> forall k :: 0 <= k <= |host| ==> !GroupEndsAt(host, k)
  {
    match GreedyGroupEnd(host, |host|)
    case Some(k) => Some(host[..k])
    case None => None
  }

  /** `re.match(r'/(.*)/(.*)', path)` succeeds. */
  ghost predicate PathRegexMatches(path: string)
  {
    |path| >= 1 && path[0] == '/' &&
    exists j :: 1 <= j < |path| && path[j] == '/' && '\n' !in path[1..j]
  }

  /** Path style: `path[1:].split('/', 1)` once the pattern has matched. */
  function PathStyle(path: string): (r: Option<(string, string)>)
    ensures r.Some? <==> PathRegexMatches(path)
    ensures r.Some? ==> '/' !in r.value.0 && r.value.0 + "/" + r.value.1 == path[1..]
  {
    if |path| >= 1 && path[0] == '/' then
      var rest := path[1..];
      var i := IndexOf(rest, '/');
      if i < |rest| && '\n' !in rest[..i] then
        assert path[i + 1] == '/' && path[1..i + 1] == rest[..i];
        var fields := SplitOnce(rest, '/');
        Some((fields[0], fields[1]))
      else
        assert !PathRegexMatches(path) by {
          if j :| 1 <= j < |path| && path[j] == '/' && '\n' !in path[1..j] {
            assert rest[j - 1] == '/';
            assert i <= j - 1;
            assert rest[..i] == path[1..j][..i];
          }
        }
        None
    else None
  }

  /** `get_bucket_name_and_resource_path`: virtual-host style first (the
      resource path is then the whole request path), path style second,
      `NotImplemented` when neither pattern matches.  A missing Host header
      reaches `re.match` as `None`, a TypeError. */
  function GetBucketNameAndResourcePath(host: Option<string>, path: string): (r: Result<(string, string), Fault>)
    ensures host.None? ==> r == Failure(Uncaught(TypeError))
    ensures host.Some? && VirtualHostBucket(host.value).Some? ==>
      r == Success((VirtualHostBucket(host.value).value, path))
    ensures host.Some? && VirtualHostBucket(host.value).None? ==>
      (r.Success? <==> PathRegexMatches(path))
    ensures host.Some? && VirtualHostBucket(host.value).None? && r.Success? ==>
      '/' !in r.value.0 && r.value.0 + "/" + r.value.1 == path[1..]
    ensures host.Some? && r.Failure? ==> r.error == Raised(NotImplemented)
  {
    match host
    case None => Failure(Uncaught(TypeError))
    case Some(hostHeader) =>
      match VirtualHostBucket(hostHeader)
      case Some(bucket) => Success((bucket, path))
      case None =>
        match PathStyle(path)
        case Some(parts) => Success(parts)
        case None => Failure(Raised(NotImplemented))
  }

  /** A path-style request `/bucket/key` resolves to that bucket and key. */
  lemma PathStyleRoundTrip(host: string, bucket: string, key: string)
    requires VirtualHostBucket(host).None?
    requires '/' !in bucket && '\n' !in bucket
    ensures GetBucketNameAndResourcePath(Some(host), "/" + bucket + "/" + key) == Success((bucket, key))
  {
    var path := "/" + bucket + "/" + key;
    var rest := bucket + ("/" + key);
    assert path[1..] == rest;
    IndexOfConcat(bucket, '/', "/" + key);
    assert IndexOf(rest, '/') == |bucket|;
    assert rest[..|bucket|] == bucket;
    assert rest[|bucket| + 1..] == key;
  }

  /** A path with no `/` after its first character, on a host the
      virtual-host pattern misses, is not served. */
  lemma PathWithoutSecondSlash(host: string, path: string)
    requires VirtualHostBucket(host).None?
    requires |path| >= 1 ==> '/' !in path[1..]
    ensures GetBucketNameAndResourcePath(Some(host), path) == Failure(Raised(NotImplemented))
  {
    assert forall j :: 1 <= j < |path| ==> path[j] == path[1..][j - 1];
  }

  /** The host name itself, without a bucket in front of it, does not match. */
  lemma BareHostnameIsPathStyle()
    ensures VirtualHostBucket(Hostname).None?
  {
  }

  /** `mybucket.b.tgr.tokyo` addresses bucket `mybucket`. */
  lemma VirtualHostExample()
    ensures VirtualHostBucket("mybucket.b.tgr.tokyo") == Some("mybucket")
  {
    var host := "mybucket.b.tgr.tokyo";
    assert GroupEndsAt(host, 8);
    var r := VirtualHostBucket(host);
    assert r.Some? && |r.value| == 8;
    assert host[..8] == "mybucket";
  }

  /** The dots are wildcards: `mybucketXbXtgrXtokyo` matches too. */
  lemma VirtualHostDotsAreWildcards()
    ensures VirtualHostBucket("mybucketXbXtgrXtokyo") == Some("mybucket")
  {
    var host := "mybucketXbXtgrXtokyo";
    assert GroupEndsAt(host, 8);
    var r := VirtualHostBucket(host);
    assert r.Some? && |r.value| == 8;
    assert host[..8] == "mybucket";
  }

  /** The group is greedy: in `a.b.b.tgr.tokyo` it takes `a.b`. */
  lemma VirtualHostGreedy()
    ensures VirtualHostBucket("a.b.b.tgr.tokyo") == Some("a.b")
  {
    var host := "a.b.b.tgr.tokyo";
    assert GroupEndsAt(host, 3);
    var r := VirtualHostBucket(host);
    assert r.Some? && |r.value| == 3;
    assert host[..3] == "a.b";
  }
}
