/** The part of `main` that decides which workbook each sitemap goes into: the
    `reduce` grouping sitemap URLs by hostname, the hostname sanitising and the
    workbook file name. */
module Grouping {
  import opened Js

  /** A sitemap URL with its hostname, as `new URL(sitemapUrl).hostname` gives it. */
  type Sitemap = (string, string)

  // ---------------------------------------------------------------- grouping

  /** The keys of the `acc` object after the `reduce`: each hostname once, in the
      order of its first occurrence. */
  function Hosts(ps: seq<Sitemap>): seq<string> {
    if ps == [] then []
    else
      var hs := Hosts(ps[..|ps| - 1]);
      if ps[|ps| - 1].0 in hs then hs else hs + [ps[|ps| - 1].0]
  }

  /** `acc[hostname]` after the `reduce`: the sitemap URLs with that hostname, in input
      order, duplicates included. */
  function UrlsOf(ps: seq<Sitemap>, h: string): seq<string> {
    if ps == [] then []
    else UrlsOf(ps[..|ps| - 1], h) + (if ps[|ps| - 1].0 == h then [ps[|ps| - 1].1] else [])
  }

  /** The `reduce` building `acc`: `acc[hostname] = [...(acc[hostname] || []), sitemapUrl]`,
      with the object's key order kept beside its contents. */
  method GroupByHost(ps: seq<Sitemap>) returns (hosts: seq<string>, groups: map<string, seq<string>>)
    ensures hosts == Hosts(ps)
    ensures forall h :: h in groups <==> h in hosts
    ensures forall h :: h in groups ==> groups[h] == UrlsOf(ps, h)
  {
    hosts := [];
    groups := map[];
    var i := 0;
    while i < |ps|
      invariant 0 <= i <= |ps|
      invariant hosts == Hosts(ps[..i])
      invariant forall h :: h in groups <==> h in hosts
      invariant forall h :: h in groups ==> groups[h] == UrlsOf(ps[..i], h)
    {
      var (hostname, sitemapUrl) := ps[i];
      assert ps[..i + 1][..i] == ps[..i];
      if hostname !in groups {
        UrlsOfAbsent(ps[..i], hostname);
      }
      var previous := if hostname in groups then groups[hostname] else [];
      if hostname !in groups {
        hosts := hosts + [hostname];
      }
      groups := groups[hostname := previous + [sitemapUrl]];
      i := i + 1;
    }
    assert ps[..i] == ps;
  }

  /** A hostname is a key of `acc` exactly when some sitemap has it. */
  lemma {:induction false} HostsMember(ps: seq<Sitemap>, h: string)
    ensures h in Hosts(ps) <==> exists i :: 0 <= i < |ps| && ps[i].0 == h
  {
    if ps != [] {
      var init := ps[..|ps| - 1];
      HostsMember(init, h);
      if exists i :: 0 <= i < |init| && init[i].0 == h {
        var i :| 0 <= i < |init| && init[i].0 == h;
        assert ps[i].0 == h;
      }
      if exists i :: 0 <= i < |ps| && ps[i].0 == h {
        var i :| 0 <= i < |ps| && ps[i].0 == h;
        if i < |init| {
          assert init[i].0 == h;
        }
      }
    }
  }

  /** Each hostname is a key of `acc` once. */
  lemma {:induction false} HostsDistinct(ps: seq<Sitemap>)
    ensures forall i, j :: 0 <= i < j < |Hosts(ps)| ==> Hosts(ps)[i] != Hosts(ps)[j]
  {
    if ps != [] {
      HostsDistinct(ps[..|ps| - 1]);
    }
  }

  /** Keys are only ever added at the end: the keys after a prefix of the sitemaps are a
      prefix of the final keys, so hostnames are ordered by their first occurrence. */
  lemma {:induction false} HostsPrefix(ps: seq<Sitemap>, n: nat)
    requires n <= |ps|
    ensures |Hosts(ps[..n])| <= |Hosts(ps)| && Hosts(ps)[..|Hosts(ps[..n])|] == Hosts(ps[..n])
  {
    if n < |ps| {
      var init := ps[..|ps| - 1];
      assert init[..n] == ps[..n];
      HostsPrefix(init, n);
    } else {
      assert ps[..n] == ps;
    }
  }

  /** A hostname without sitemaps has no URLs. */
  lemma {:induction false} UrlsOfAbsent(ps: seq<Sitemap>, h: string)
    requires h !in Hosts(ps)
    ensures UrlsOf(ps, h) == []
  {
    if ps != [] {
      UrlsOfAbsent(ps[..|ps| - 1], h);
    }
  }

  /** Every key of `acc` holds at least one URL. */
  lemma {:induction false} UrlsOfPresent(ps: seq<Sitemap>, h: string)
    requires h in Hosts(ps)
    ensures UrlsOf(ps, h) != []
  {
    var init := ps[..|ps| - 1];
    if ps[|ps| - 1].0 != h {
      UrlsOfPresent(init, h);
    }
  }

  /** The groups in the order `Object.entries(groupedUrls)` visits them. */
  function Groups(ps: seq<Sitemap>): (gs: seq<seq<string>>)
    ensures |gs| == |Hosts(ps)|
    ensures forall k :: 0 <= k < |gs| ==> gs[k] == UrlsOf(ps, Hosts(ps)[k])
  {
    seq(|Hosts(ps)|, k requires 0 <= k < |Hosts(ps)| => UrlsOf(ps, Hosts(ps)[k]))
  }

  function Flatten(gs: seq<seq<string>>): seq<string> {
    if gs == [] then [] else gs[0] + Flatten(gs[1..])
  }

  function SitemapUrls(ps: seq<Sitemap>): (us: seq<string>)
    ensures |us| == |ps| && forall i :: 0 <= i < |ps| ==> us[i] == ps[i].1
  {
    seq(|ps|, i requires 0 <= i < |ps| => ps[i].1)
  }

  lemma {:induction false} FlattenSnoc(gs: seq<seq<string>>, g: seq<string>)
    ensures Flatten(gs + [g]) == Flatten(gs) + g
  {
    if gs == [] {
      assert gs + [g] == [g];
    } else {
      assert (gs + [g])[1..] == gs[1..] + [g];
      FlattenSnoc(gs[1..], g);
      AppendAssoc(gs[0], Flatten(gs[1..]), g);
    }
  }

  lemma {:induction false} FlattenExtend(gs: seq<seq<string>>, k: nat, u: string)
    requires k < |gs|
    ensures multiset(Flatten(gs[k := gs[k] + [u]])) == multiset(Flatten(gs)) + multiset{u}
  {
    var hs := gs[k := gs[k] + [u]];
    if k == 0 {
      assert hs[1..] == gs[1..];
    } else {
      assert hs[1..] == gs[1..][k - 1 := gs[k] + [u]];
      FlattenExtend(gs[1..], k - 1, u);
    }
  }

  /** The index of a hostname among the keys. */
  lemma HostIndex(ps: seq<Sitemap>, h: string) returns (k: nat)
    requires h in Hosts(ps)
    ensures k < |Hosts(ps)| && Hosts(ps)[k] == h
  {
    var hs := Hosts(ps);
    var j :| 0 <= j < |hs| && hs[j] == h;
    k := j;
  }

  /** Appending a sitemap whose hostname already has a group extends that group only. */
  lemma GroupsExtend(ps: seq<Sitemap>, p: Sitemap, k: nat)
    requires p.0 in Hosts(ps) && k < |Hosts(ps)| && Hosts(ps)[k] == p.0
    ensures Groups(ps + [p]) == Groups(ps)[k := Groups(ps)[k] + [p.1]]
  {
    var qs := ps + [p];
    assert qs[..|qs| - 1] == ps;
    assert Hosts(qs) == Hosts(ps);
    HostsDistinct(ps);
    var before := Groups(ps);
    var after := Groups(qs);
    var expected := before[k := before[k] + [p.1]];
    forall j | 0 <= j < |after| ensures after[j] == expected[j] {
      var h := Hosts(ps)[j];
      assert after[j] == UrlsOf(ps, h) + (if p.0 == h then [p.1] else []);
      assert p.0 == h <==> j == k;
    }
    assert after == expected;
  }

  /** Appending a sitemap with a new hostname adds a group holding just its URL. */
  lemma GroupsAdd(ps: seq<Sitemap>, p: Sitemap)
    requires p.0 !in Hosts(ps)
    ensures Groups(ps + [p]) == Groups(ps) + [[p.1]]
  {
    var qs := ps + [p];
    assert qs[..|qs| - 1] == ps;
    assert Hosts(qs) == Hosts(ps) + [p.0];
    UrlsOfAbsent(ps, p.0);
    var before := Groups(ps);
    var after := Groups(qs);
    forall j | 0 <= j < |after| ensures after[j] == (before + [[p.1]])[j] {
      var h := Hosts(qs)[j];
      assert after[j] == UrlsOf(ps, h) + (if p.0 == h then [p.1] else []);
      if j < |before| {
        assert h == Hosts(ps)[j] && h != p.0;
      }
    }
    assert after == before + [[p.1]];
  }

  /** Grouping is a partition: the groups together hold every sitemap URL exactly as
      often as the input lists it. */
  lemma {:induction false} GroupsPartition(ps: seq<Sitemap>)
    ensures multiset(Flatten(Groups(ps))) == multiset(SitemapUrls(ps))
  {
    if ps == [] {
      assert Groups(ps) == [];
    } else {
      var init := ps[..|ps| - 1];
      var p := ps[|ps| - 1];
      assert ps == init + [p];
      assert SitemapUrls(ps) == SitemapUrls(init) + [p.1];
      GroupsPartition(init);
      if p.0 in Hosts(init) {
        var k := HostIndex(init, p.0);
        GroupsExtend(init, p, k);
        FlattenExtend(Groups(init), k, p.1);
      } else {
        GroupsAdd(init, p);
        FlattenSnoc(Groups(init), [p.1]);
      }
    }
  }

  // ---------------------------------------------------------------- sanitising

  /** What is left once a run of non-word characters at the front is dropped. */
  function DropNonWord(s: string): (r: string)
    ensures |r| <= |s|
  {
    if s != [] && !IsWordChar(s[0]) then DropNonWord(s[1..]) else s
  }

  /** `hostname.replace(/\W+/g, '_')`: each maximal run of non-word characters becomes
      one underscore. */
  function Sanitize(s: string): string
    decreases |s|
  {
    if s == [] then ""
    else if IsWordChar(s[0]) then [s[0]] + Sanitize(s[1..])
    else "_" + Sanitize(DropNonWord(s[1..]))
  }

  /** The sanitised hostname holds only word characters. */
  lemma {:induction false} SanitizeWord(s: string)
    ensures AllWord(Sanitize(s))
    decreases |s|
  {
    if s != [] {
      if IsWordChar(s[0]) {
        SanitizeWord(s[1..]);
      } else {
        SanitizeWord(DropNonWord(s[1..]));
      }
    }
  }

  /** A hostname of word characters only is kept as it is. */
  lemma {:induction false} SanitizeKeepsWords(s: string)
    requires AllWord(s)
    ensures Sanitize(s) == s
  {
    if s != [] {
      SanitizeKeepsWords(s[1..]);
    }
  }

  /** Sanitising leaves a hostname unchanged exactly when it holds only word characters,
      and sanitising twice is sanitising once. */
  lemma SanitizeFixed(s: string)
    ensures Sanitize(s) == s <==> AllWord(s)
    ensures Sanitize(Sanitize(s)) == Sanitize(s)
  {
    SanitizeWord(s);
    if AllWord(s) {
      SanitizeKeepsWords(s);
    }
    SanitizeKeepsWords(Sanitize(s));
  }

  predicate NoWord(s: string) {
    forall i :: 0 <= i < |s| ==> !IsWordChar(s[i])
  }

  lemma {:induction false} DropRun(r: string, t: string)
    requires NoWord(r) && (t == [] || IsWordChar(t[0]))
    ensures DropNonWord(r + t) == t
  {
    if r == [] {
      assert r + t == t;
    } else {
      assert (r + t)[0] == r[0];
      assert (r + t)[1..] == r[1..] + t;
      DropRun(r[1..], t);
    }
  }

  /** Word characters are kept in order and a whole run of non-word characters that
      follows them becomes a single underscore. */
  lemma {:induction false} SanitizeRun(w: string, r: string, t: string)
    requires AllWord(w) && r != [] && NoWord(r) && (t == [] || IsWordChar(t[0]))
    ensures Sanitize(w + r + t) == w + "_" + Sanitize(t)
  {
    if w == [] {
      assert w + r + t == r + t;
      assert (r + t)[0] == r[0];
      assert (r + t)[1..] == r[1..] + t;
      DropRun(r[1..], t);
    } else {
      assert (w + r + t)[0] == w[0];
      assert (w + r + t)[1..] == w[1..] + r + t;
      SanitizeRun(w[1..], r, t);
      AppendAssoc([w[0]], w[1..], "_");
      AppendAssoc([w[0]], w[1..] + "_", Sanitize(t));
      assert w == [w[0]] + w[1..];
    }
  }

  // ---------------------------------------------------------------- file name

  /** `new Date().toISOString().slice(0, 10)`. */
  function DateSuffix(iso: string): (d: string)
    ensures |d| == if |iso| <= 10 then |iso| else 10
    ensures d == iso[..|d|]
  {
    if |iso| <= 10 then iso else iso[..10]
  }

  const FilePrefix: string := "ScrapedData_"
  const FileExtension: string := ".xlsx"

  /** `ScrapedData_${safeHostname}_${dateSuffix}.xlsx`. */
  function FileName(safe: string, date: string): string {
    FilePrefix + safe + "_" + date + FileExtension
  }

  /** The name starts with the prefix, ends with the extension, and the sanitised
      hostname and the date can be read back from it once the date's length is known. */
  lemma FileNameParts(safe: string, date: string)
    ensures var n := FileName(safe, date);
            |n| == 12 + |safe| + 1 + |date| + 5
            && n[..12] == FilePrefix && n[|n| - 5..] == FileExtension
            && n[12..12 + |safe|] == safe && n[12 + |safe|] == '_'
            && n[13 + |safe|..|n| - 5] == date
  {
    var n := FileName(safe, date);
    assert n == FilePrefix + (safe + ("_" + (date + FileExtension)));
  }

  /** On one day, two hostnames share a file exactly when they sanitise alike. */
  lemma FileNameInjective(a: string, b: string, date: string)
    ensures FileName(Sanitize(a), date) == FileName(Sanitize(b), date) <==> Sanitize(a) == Sanitize(b)
  {
    if FileName(Sanitize(a), date) == FileName(Sanitize(b), date) {
      FileNameParts(Sanitize(a), date);
      FileNameParts(Sanitize(b), date);
    }
  }

  /** The file name never holds a path separator when the date does not, so
      `path.join(__dirname, fileName)` stays in the script's directory. */
  lemma FileNameNoSeparator(hostname: string, date: string)
    requires '/' !in date
    ensures '/' !in FileName(Sanitize(hostname), date)
  {
    var safe := Sanitize(hostname);
    SanitizeWord(hostname);
    assert '/' !in safe;
    assert FileName(safe, date) == FilePrefix + (safe + ("_" + (date + FileExtension)));
  }

  /** Two different hostnames can share a workbook: `a-b.com` and `a.b.com` both become
      `a_b_com`. */
  lemma DistinctHostsShareFile(date: string)
    ensures "a-b.com" != "a.b.com"
    ensures FileName(Sanitize("a-b.com"), date) == FileName(Sanitize("a.b.com"), date)
  {
    SanitizeRun("a", "-", "b.com");
    SanitizeRun("a", ".", "b.com");
  }
}
