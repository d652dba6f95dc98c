/** Path prefixes: segment-boundary matching, prefix stripping and joining. */
module Paths {
  import opened Text

  predicate PathMatches(prefix: string, path: string) {
    prefix == "" || prefix == "/" ||
    (prefix <= path && (|path| == |prefix| || path[|prefix|] == '/' || HasSuffix(prefix, "/")))
  }

  function SingleJoiningSlash(a: string, b: string): string {
    var aslash := HasSuffix(a, "/");
    var bslash := "/" <= b;
    if aslash && bslash then a + b[1..]
    else if !aslash && !bslash then a + "/" + b
    else a + b
  }

  function TrimPrefix(s: string, prefix: string): string {
    if prefix <= s then s[|prefix|..] else s
  }

  /** The path handed to the backend by a route with this prefix. */
  function BackendPath(strip: bool, prefix: string, path: string): string {
    if strip && prefix != "/" then
      var rest := TrimPrefix(path, prefix);
      if rest == "" || rest[0] != '/' then "/" + rest else rest
    else path
  }

  /********** Segments **********/

  /** A path cut at every slash; "/a/b" has the segments "", "a", "b" (section 3.3 of RFC 3986). */
  function Segments(s: string): (r: seq<string>)
    ensures |r| >= 1
  {
    if s == "" then [""]
    else
      var rest := Segments(s[1..]);
      if s[0] == '/' then [""] + rest else [[s[0]] + rest[0]] + rest[1..]
  }

  /** `p` is a prefix of `q` that ends where a segment of `q` ends. */
  predicate EndsSegment(p: string, q: string) {
    p <= q && (|p| == |q| || q[|p|] == '/')
  }

  lemma {:induction false} SegmentsPrefix(p: string, q: string)
    ensures Segments(p) <= Segments(q) <==> EndsSegment(p, q)
  {
    if p == "" {
      assert Segments(p) <= Segments(q) <==> Segments(q)[0] == "";
    } else if q == "" {
      assert Segments(p)[0] != "" || |Segments(p)| > 1;
    } else {
      SegmentsPrefix(p[1..], q[1..]);
      var sp, sq := Segments(p[1..]), Segments(q[1..]);
      assert EndsSegment(p, q) <==> p[0] == q[0] && EndsSegment(p[1..], q[1..]) by {
        if p[0] == q[0] && p[1..] <= q[1..] {
          assert q[..|p|] == [q[0]] + q[1..][..|p| - 1] == p;
        }
      }
      if p[0] == '/' && q[0] == '/' {
        assert Segments(p)[1..] == sp && Segments(q)[1..] == sq;
        assert sp <= sq ==> Segments(p) == Segments(q)[..|Segments(p)|];
      } else if p[0] != '/' && q[0] != '/' {
        assert Segments(p)[0][1..] == sp[0] && Segments(q)[0][1..] == sq[0];
        assert Segments(p)[1..] == sp[1..] && Segments(q)[1..] == sq[1..];
        if Segments(p) <= Segments(q) {
          assert Segments(p)[0] == Segments(q)[0];
          assert forall i :: 1 <= i < |sp| ==> sp[i] == Segments(p)[i] == Segments(q)[i] == sq[i];
          assert sp <= sq;
        }
        if p[0] == q[0] && sp <= sq {
          assert forall i :: 1 <= i < |sp| ==> Segments(p)[i] == sp[i] == sq[i] == Segments(q)[i];
          assert Segments(p) <= Segments(q);
        }
      }
    }
  }

  /** A prefix with no trailing slash matches exactly the paths whose segments extend its own. */
  lemma {:induction false} PathMatchesSegments(prefix: string, path: string)
    requires prefix != "" && !HasSuffix(prefix, "/")
    ensures PathMatches(prefix, path) <==> Segments(prefix) <= Segments(path)
  {
    SegmentsPrefix(prefix, path);
  }

  /** A prefix ending in a slash matches exactly the paths strictly below the directory it names. */
  lemma {:induction false} PathMatchesDirectory(dir: string, path: string)
    requires dir != ""
    ensures PathMatches(dir + "/", path) <==> Segments(dir) < Segments(path)
  {
    SegmentsPrefix(dir, path);
    SegmentsPrefix(path, dir);
    var prefix := dir + "/";
    assert HasSuffix(prefix, "/");
    if prefix <= path {
      assert path[..|dir|] == prefix[..|dir|] == dir;
      assert path[|dir|] == prefix[|dir|];
    }
    if Segments(dir) < Segments(path) {
      assert |dir| < |path|;
      assert path[..|prefix|] == path[..|dir|] + [path[|dir|]];
    }
  }

  /** The path is at or below the prefix, segment by segment; no prefix and "/" take every path. */
  ghost predicate Below(prefix: string, path: string) {
    if prefix == "" || prefix == "/" then true
    else if prefix[|prefix| - 1] == '/' then Segments(prefix[..|prefix| - 1]) < Segments(path)
    else Segments(prefix) <= Segments(path)
  }

  lemma {:induction false} MatchesBelow(prefix: string, path: string)
    ensures PathMatches(prefix, path) <==> Below(prefix, path)
  {
    if prefix != "" && prefix != "/" {
      if prefix[|prefix| - 1] == '/' {
        var dir := prefix[..|prefix| - 1];
        assert dir + "/" == prefix;
        PathMatchesDirectory(dir, path);
      } else {
        PathMatchesSegments(prefix, path);
      }
    }
  }

  lemma {:induction false} PathMatchesTransitive(p: string, q: string, r: string)
    requires PathMatches(p, q) && PathMatches(q, r)
    ensures PathMatches(p, r)
  {
  }

  /** All prefixes of one path are comparable: the longer is covered by the shorter. */
  lemma {:induction false} MatchingPrefixesFormChain(p: string, q: string, path: string)
    requires PathMatches(p, path) && PathMatches(q, path)
    requires |p| <= |q| && q != "/"
    ensures PathMatches(p, q)
  {
  }

  /** Equally long non-empty prefixes of a request path are equal. */
  lemma {:induction false} SameLengthPrefixesCoincide(p: string, q: string, path: string)
    requires p != "" && q != "" && (path == "" || path[0] == '/')
    requires PathMatches(p, path) && PathMatches(q, path) && |p| == |q|
    ensures p == q
  {
  }

  /********** Strip and join **********/

  function Slashed(rest: string): string {
    if rest != "" && rest[0] == '/' then rest else "/" + rest
  }

  /** Stripping leaves what follows the prefix, with a slash in front; without it the path stays. */
  lemma {:induction false} Unstripped(prefix: string, path: string)
    requires prefix != "" && prefix != "/" && PathMatches(prefix, path)
    ensures exists rest :: path == prefix + rest && BackendPath(true, prefix, path) == Slashed(rest)
    ensures BackendPath(false, prefix, path) == path && BackendPath(true, "/", path) == path
  {
    var rest := path[|prefix|..];
    assert path == prefix + rest;
  }

  /** Matching by a slash-less prefix stops exactly at it. */
  predicate GainsSlash(prefix: string, path: string) {
    !HasSuffix(prefix, "/") && path == prefix
  }

  /** A trailing-slash prefix is followed by one more slash. */
  predicate LosesSlash(prefix: string, path: string) {
    HasSuffix(prefix, "/") && prefix + "/" <= path
  }

  /** Joining the prefix back on rebuilds the path, up to one slash in two exact cases. */
  lemma {:induction false} StripJoin(prefix: string, path: string)
    requires prefix != "" && prefix != "/" && PathMatches(prefix, path)
    ensures var stripped := BackendPath(true, prefix, path);
            var joined := SingleJoiningSlash(prefix, stripped);
            && "/" <= stripped
            && (joined == path <==> !GainsSlash(prefix, path) && !LosesSlash(prefix, path))
            && (GainsSlash(prefix, path) ==> joined == path + "/")
            && (LosesSlash(prefix, path) ==> path == prefix + "/" + joined[|prefix|..])
  {
  }
}
