/**
  The persistence step of `save_data`: each site's JSON file holds an object
  from page keys to content records, and saving a page upserts its record.
  The files are modelled as a map from file name to that object.
 */
module Store {
  import opened Extract
  import opened Keys

  /** The JSON files on disk: file name to (page key to record). */
  type Files = map<string, map<string, Content>>

  /** Set `page` to `data` in the object of file `name`, starting from an empty
      object when the file does not exist; every other entry is kept. */
  function Upsert(files: Files, name: string, page: string, data: Content): (r: Files)
    ensures r.Keys == files.Keys + {name}
    ensures forall f :: f in files && f != name ==> r[f] == files[f]
    ensures name !in files ==> r[name].Keys == {page}
    ensures name in files ==> r[name].Keys == files[name].Keys + {page}
    ensures r[name][page] == data
    ensures name in files ==> forall k :: k in files[name] && k != page ==> r[name][k] == files[name][k]
  {
    if name in files then files[name := files[name][page := data]]
    else files[name := map[page := data]]
  }

  lemma UpsertLastWins(files: Files, name: string, page: string, d1: Content, d2: Content)
    ensures Upsert(Upsert(files, name, page, d1), name, page, d2) == Upsert(files, name, page, d2)
  {
    var a, b := Upsert(Upsert(files, name, page, d1), name, page, d2), Upsert(files, name, page, d2);
    assert a.Keys == b.Keys;
    assert a[name].Keys == b[name].Keys;
    assert a[name] == b[name];
  }

  lemma SwapUpdates(m: map<string, Content>, p1: string, p2: string, d1: Content, d2: Content)
    requires p1 != p2
    ensures m[p1 := d1][p2 := d2] == m[p2 := d2][p1 := d1]
  {
    var x, y := m[p1 := d1][p2 := d2], m[p2 := d2][p1 := d1];
    assert x.Keys == y.Keys;
    assert forall k :: k in x ==> x[k] == y[k];
  }

  lemma UpsertCommuteSameFile(files: Files, n: string, p1: string, p2: string, d1: Content, d2: Content)
    requires p1 != p2
    ensures Upsert(Upsert(files, n, p1, d1), n, p2, d2) == Upsert(Upsert(files, n, p2, d2), n, p1, d1)
  {
    var m := if n in files then files[n] else map[];
    assert Upsert(files, n, p1, d1) == files[n := m[p1 := d1]];
    assert Upsert(files, n, p2, d2) == files[n := m[p2 := d2]];
    SwapUpdates(m, p1, p2, d1, d2);
  }

  lemma SwapFiles(files: Files, n1: string, n2: string, m1: map<string, Content>, m2: map<string, Content>)
    requires n1 != n2
    ensures files[n1 := m1][n2 := m2] == files[n2 := m2][n1 := m1]
  {
    var x, y := files[n1 := m1][n2 := m2], files[n2 := m2][n1 := m1];
    assert x.Keys == y.Keys;
    assert forall f :: f in x ==> x[f] == y[f];
  }

  /** The object of file `n` that an upsert starts from. */
  function Prior(files: Files, n: string): map<string, Content> {
    if n in files then files[n] else map[]
  }

  /** An upsert into file `n2` after another file `n1` was replaced starts from
      the same object as without that replacement. */
  lemma UpsertAfterOther(files: Files, n1: string, x: map<string, Content>, n2: string, p: string, d: Content)
    requires n1 != n2
    ensures Upsert(files[n1 := x], n2, p, d) == files[n1 := x][n2 := Prior(files, n2)[p := d]]
  {
    assert Prior(files[n1 := x], n2) == Prior(files, n2);
  }

  lemma UpsertCommuteOtherFile(files: Files, n1: string, p1: string, n2: string, p2: string, d1: Content, d2: Content)
    requires n1 != n2
    ensures Upsert(Upsert(files, n1, p1, d1), n2, p2, d2) == Upsert(Upsert(files, n2, p2, d2), n1, p1, d1)
  {
    var x1, x2 := Prior(files, n1)[p1 := d1], Prior(files, n2)[p2 := d2];
    assert Upsert(files, n1, p1, d1) == files[n1 := x1];
    assert Upsert(files, n2, p2, d2) == files[n2 := x2];
    UpsertAfterOther(files, n1, x1, n2, p2, d2);
    UpsertAfterOther(files, n2, x2, n1, p1, d1);
    SwapFiles(files, n1, n2, x1, x2);
  }

  lemma UpsertCommute(files: Files, n1: string, p1: string, n2: string, p2: string, d1: Content, d2: Content)
    requires n1 != n2 || p1 != p2
    ensures Upsert(Upsert(files, n1, p1, d1), n2, p2, d2) == Upsert(Upsert(files, n2, p2, d2), n1, p1, d1)
  {
    if n1 == n2 {
      UpsertCommuteSameFile(files, n1, p1, p2, d1, d2);
    } else {
      UpsertCommuteOtherFile(files, n1, p1, n2, p2, d1, d2);
    }
  }

  /** `save_data(data, url)` for the parsed URL `u`: load the site's object (or
      start from an empty one when the file does not exist), set the page's key
      to `data`, and write the object back. */
  function Save(files: Files, u: Url, data: Content): (r: Files)
    ensures r.Keys == files.Keys + {SiteFileName(u.netloc)}
    ensures forall f :: f in files && f != SiteFileName(u.netloc) ==> r[f] == files[f]
    ensures SiteFileName(u.netloc) !in files ==> r[SiteFileName(u.netloc)].Keys == {PageKey(u.path)}
    ensures SiteFileName(u.netloc) in files ==>
      r[SiteFileName(u.netloc)].Keys == files[SiteFileName(u.netloc)].Keys + {PageKey(u.path)}
    ensures r[SiteFileName(u.netloc)][PageKey(u.path)] == data
    ensures SiteFileName(u.netloc) in files ==>
      forall k :: k in files[SiteFileName(u.netloc)] && k != PageKey(u.path) ==>
           r[SiteFileName(u.netloc)][k] == files[SiteFileName(u.netloc)][k]
  {
    Upsert(files, SiteFileName(u.netloc), PageKey(u.path), data)
  }

  /** Saving two URLs that map to the same file and page key keeps only the
      second record: the merge is an overwrite, not an append. */
  lemma SaveLastWins(files: Files, u: Url, v: Url, d1: Content, d2: Content)
    requires SiteFileName(u.netloc) == SiteFileName(v.netloc)
    requires PageKey(u.path) == PageKey(v.path)
    ensures Save(Save(files, u, d1), v, d2) == Save(files, v, d2)
  {
    UpsertLastWins(files, SiteFileName(v.netloc), PageKey(v.path), d1, d2);
  }

  /** Saving the same record twice changes nothing the second time. */
  lemma SaveIdempotent(files: Files, u: Url, d: Content)
    ensures Save(Save(files, u, d), u, d) == Save(files, u, d)
  {
    SaveLastWins(files, u, u, d, d);
  }

  /** Two saves to different pages (or different sites) do not interfere: both
      records are present afterwards, whichever order they happened in. */
  lemma SaveDistinctCommute(files: Files, u: Url, v: Url, d1: Content, d2: Content)
    requires SiteFileName(u.netloc) != SiteFileName(v.netloc) || PageKey(u.path) != PageKey(v.path)
    ensures Save(Save(files, u, d1), v, d2) == Save(Save(files, v, d2), u, d1)
    ensures Save(Save(files, u, d1), v, d2)[SiteFileName(u.netloc)][PageKey(u.path)] == d1
    ensures Save(Save(files, u, d1), v, d2)[SiteFileName(v.netloc)][PageKey(v.path)] == d2
  {
    UpsertCommute(files, SiteFileName(u.netloc), PageKey(u.path), SiteFileName(v.netloc), PageKey(v.path), d1, d2);
  }
}
