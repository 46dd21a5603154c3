/**
  How `save_data` names things: the page key inside a site's JSON file (from
  the URL path) and the JSON file's name (from the URL's network location).
 */
module Keys {
  import opened Text

  /** The two components of `urlparse(url)` that naming uses. */
  datatype Url = Url(netloc: string, path: string)

  /** Page key: the path with every leading and trailing `/` removed and each
      remaining `/` turned into `_`; `"home"` when nothing is left. */
  function PageKey(path: string): (r: string)
    ensures forall i :: 0 <= i < |r| ==> r[i] != '/'
    ensures forall t {:trigger IsTrimOf(t, path, IsSlash)} :: IsTrimOf(t, path, IsSlash) ==>
      && (t == [] ==> r == "home")
      && (t != [] ==> |r| == |t| && forall i :: 0 <= i < |t| ==> r[i] == (if t[i] == '/' then '_' else t[i]))
  {
    var stripped := Trim(path, IsSlash);
    forall t | IsTrimOf(t, path, IsSlash) ensures t == stripped {
      TrimUnique(t, stripped, path, IsSlash);
    }
    var key := ReplaceChar(stripped, '/', '_');
    if key == [] then "home" else key
  }

  /** Site file name: the network location with every `.` turned into `_`
      (a `:port` is kept as it is), followed by `.json`. */
  function SiteFileName(netloc: string): (r: string)
    ensures |r| == |netloc| + 5
    ensures r[|netloc|..] == ".json"
    ensures forall i :: 0 <= i < |netloc| ==> r[i] == (if netloc[i] == '.' then '_' else netloc[i])
    ensures forall i :: 0 <= i < |r| && r[i] == '.' ==> i == |netloc|
  {
    ReplaceChar(netloc, '.', '_') + ".json"
  }

  /** A path made of slashes only stays so with one more slash in front. */
  lemma AllSlashes(p: string)
    requires forall k :: 0 <= k < |p| ==> IsSlash(p[k])
    ensures Trim("/" + p, IsSlash) == [] && Trim(p + "/", IsSlash) == []
  {
    var q, q' := "/" + p, p + "/";
    assert forall k :: 1 <= k < |q| ==> q[k] == p[k - 1];
    assert forall k :: 0 <= k < |p| ==> q'[k] == p[k];
    assert TrimsAt(q, IsSlash, |q|, |q|);
    TrimsAtCanonical(q, IsSlash, |q|, |q|);
    assert TrimsAt(q', IsSlash, |q'|, |q'|);
    TrimsAtCanonical(q', IsSlash, |q'|, |q'|);
  }

  /** A cut of `p` moves one place right in `/` followed by `p`. */
  lemma ShiftedTrim(p: string, q: string, i: int, j: int)
    requires q == "/" + p && TrimsAt(p, IsSlash, i, j) && i < j
    ensures TrimsAt(q, IsSlash, i + 1, j + 1) && q[i + 1..j + 1] == p[i..j]
  {
    assert forall k :: 1 <= k < |q| ==> q[k] == p[k - 1];
  }

  /** The non-empty case of `TrimLeadingSlash`: the cut moves one place right. */
  lemma TrimLeadingSlashCut(p: string, i: int, j: int)
    requires TrimsAt(p, IsSlash, i, j) && i < j
    ensures Trim("/" + p, IsSlash) == p[i..j]
  {
    ShiftedTrim(p, "/" + p, i, j);
    TrimsAtCanonical("/" + p, IsSlash, i + 1, j + 1);
  }

  /** A leading `/` is stripped away. */
  lemma TrimLeadingSlash(p: string)
    ensures Trim("/" + p, IsSlash) == Trim(p, IsSlash)
  {
    var i := LeadingCount(p, IsSlash);
    var j := TrailingStart(p, i, IsSlash);
    assert TrimsAt(p, IsSlash, i, j) && Trim(p, IsSlash) == p[i..j];
    if i == j {
      AllSlashes(p);
    } else {
      TrimLeadingSlashCut(p, i, j);
    }
  }

  /** A trailing `/` is stripped away. */
  lemma TrimTrailingSlash(p: string)
    ensures Trim(p + "/", IsSlash) == Trim(p, IsSlash)
  {
    var i := LeadingCount(p, IsSlash);
    var j := TrailingStart(p, i, IsSlash);
    assert TrimsAt(p, IsSlash, i, j) && Trim(p, IsSlash) == p[i..j];
    var q := p + "/";
    if i == j {
      AllSlashes(p);
    } else {
      assert forall k :: 0 <= k < |p| ==> q[k] == p[k];
      assert TrimsAt(q, IsSlash, i, j);
      assert q[i..j] == p[i..j];
      TrimsAtCanonical(q, IsSlash, i, j);
    }
  }

  /** Slashes around the path do not matter: `/p`, `p/` and `p` share their key. */
  lemma PageKeyIgnoresOuterSlashes(p: string)
    ensures PageKey("/" + p) == PageKey(p)
    ensures PageKey(p + "/") == PageKey(p)
  {
    TrimLeadingSlash(p);
    TrimTrailingSlash(p);
  }

  /** `/a/b/` gives `a_b`; the empty path and `/` give `home`. */
  lemma PageKeyExamples()
    ensures PageKey("/a/b/") == "a_b"
    ensures PageKey("") == "home"
    ensures PageKey("/") == "home"
  {
    var s := "/a/b/";
    assert TrimsAt(s, IsSlash, 1, 4) && s[1..4] == "a/b";
    assert IsTrimOf("a/b", s, IsSlash);
    var r := PageKey(s);
    assert r[0] == 'a' && r[1] == '_' && r[2] == 'b';
    assert TrimsAt("", IsSlash, 0, 0) && ""[0..0] == "";
    assert IsTrimOf("", "", IsSlash);
    assert TrimsAt("/", IsSlash, 1, 1) && "/"[1..1] == "";
    assert IsTrimOf("", "/", IsSlash);
  }

  /** Distinct paths can share a key, so their records land on the same entry:
      `/a/b` and `/a_b` both give `a_b`. */
  lemma PageKeySlashUnderscoreCollision()
    ensures PageKey("/a/b") == "a_b"
    ensures PageKey("/a_b") == "a_b"
  {
    var s, s' := "/a/b", "/a_b";
    assert TrimsAt(s, IsSlash, 1, 4) && s[1..4] == "a/b";
    assert IsTrimOf("a/b", s, IsSlash);
    var r := PageKey(s);
    assert r[0] == 'a' && r[1] == '_' && r[2] == 'b';
    assert TrimsAt(s', IsSlash, 1, 4) && s'[1..4] == "a_b";
    assert IsTrimOf("a_b", s', IsSlash);
    var r' := PageKey(s');
    assert r'[0] == 'a' && r'[1] == '_' && r'[2] == 'b';
  }

  /** The page at `/home` and the site root share the key `home`. */
  lemma PageKeyHomeCollision()
    ensures PageKey("/home") == "home"
  {
    var h := "/home";
    assert TrimsAt(h, IsSlash, 1, 5) && h[1..5] == "home";
    assert IsTrimOf("home", h, IsSlash);
    var rh := PageKey(h);
    assert rh[0] == 'h' && rh[1] == 'o' && rh[2] == 'm' && rh[3] == 'e';
  }
}
