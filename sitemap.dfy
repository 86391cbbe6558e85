/**
 * `sitemap()`: the latest project date and the list of entries, the home
 * page and the project list first, then one page per project in order.
 */
module Sitemap {
  import Wrappers
  import Strings
  import Projects
  import SiteConfig

  const StartDate: string := "2024-01-01"

  /** JavaScript truthiness of an optional string. */
  predicate Truthy(s: Wrappers.Option<string>) {
    s.Some? && s.value != ""
  }

  /** `p.updatedAt || p.createdAt`. */
  function EffectiveDate(p: Projects.Project): (r: Wrappers.Option<string>)
    ensures Truthy(p.updatedAt) ==> r == p.updatedAt
    ensures !Truthy(p.updatedAt) ==> r == p.createdAt
  {
    if Truthy(p.updatedAt) then p.updatedAt else p.createdAt
  }

  /** One step of the `reduce`: a truthy date greater than `latest` replaces it. */
  function LatestStep(latest: string, p: Projects.Project): (r: string)
    ensures Strings.LexLe(latest, r)
    ensures r == latest || Wrappers.Some(r) == EffectiveDate(p)
  {
    var date := EffectiveDate(p);
    if Truthy(date) && Strings.LexLess(latest, date.value) then date.value else latest
  }

  /** `projects.reduce(LatestStep, start)`, unfolded from the last project. */
  function LatestFrom(start: string, ps: seq<Projects.Project>): (r: string)
    ensures Strings.LexLe(start, r)
    decreases |ps|
  {
    if ps == [] then start
    else
      var prev := LatestFrom(start, ps[..|ps| - 1]);
      Strings.LexLeTransitive(start, prev, LatestStep(prev, ps[|ps| - 1]));
      LatestStep(prev, ps[|ps| - 1])
  }

  /** `latestProjectDate`: never earlier than `'2024-01-01'`. */
  function LatestProjectDate(ps: seq<Projects.Project>): (r: string)
    ensures Strings.LexLe(StartDate, r)
  {
    LatestFrom(StartDate, ps)
  }

  /** The fold ends on its start or on some project's date. */
  lemma {:induction false} LatestFromBounds(start: string, ps: seq<Projects.Project>)
    ensures LatestFrom(start, ps) == start ||
            exists i :: 0 <= i < |ps| && EffectiveDate(ps[i]) == Wrappers.Some(LatestFrom(start, ps))
    decreases |ps|
  {
    if ps != [] {
      var init := ps[..|ps| - 1];
      LatestFromBounds(start, init);
      var prev := LatestFrom(start, init);
      var r := LatestFrom(start, ps);
      if r != start {
        if r == prev {
          var i :| 0 <= i < |init| && EffectiveDate(init[i]) == Wrappers.Some(prev);
          assert ps[i] == init[i];
        } else {
          assert EffectiveDate(ps[|ps| - 1]) == Wrappers.Some(r);
        }
      }
    }
  }

  /** The fold is at least every project's truthy date. */
  lemma {:induction false} LatestFromAbove(start: string, ps: seq<Projects.Project>)
    ensures forall i :: 0 <= i < |ps| && Truthy(EffectiveDate(ps[i])) ==>
              Strings.LexLe(EffectiveDate(ps[i]).value, LatestFrom(start, ps))
    decreases |ps|
  {
    if ps != [] {
      var n := |ps| - 1;
      var init := ps[..n];
      LatestFromAbove(start, init);
      var prev := LatestFrom(start, init);
      var r := LatestFrom(start, ps);
      forall i | 0 <= i < |ps| && Truthy(EffectiveDate(ps[i]))
        ensures Strings.LexLe(EffectiveDate(ps[i]).value, r)
      {
        var d := EffectiveDate(ps[i]).value;
        if i < n {
          assert ps[i] == init[i];
          Strings.LexLeTransitive(d, prev, r);
        } else if !Strings.LexLess(prev, d) {
          Strings.LexNotLess(prev, d);
        }
      }
    }
  }

  /** `latestProjectDate`: at least `'2024-01-01'`, equal to it or to some
      project's date, and at least every project's truthy date. */
  lemma LatestProjectDateSpec(ps: seq<Projects.Project>)
    ensures Strings.LexLe(StartDate, LatestProjectDate(ps))
    ensures LatestProjectDate(ps) == StartDate ||
            exists i :: 0 <= i < |ps| && EffectiveDate(ps[i]) == Wrappers.Some(LatestProjectDate(ps))
    ensures forall i :: 0 <= i < |ps| && Truthy(EffectiveDate(ps[i])) ==>
              Strings.LexLe(EffectiveDate(ps[i]).value, LatestProjectDate(ps))
  {
    LatestFromBounds(StartDate, ps);
    LatestFromAbove(StartDate, ps);
  }

  /** Where an entry's `lastModified` comes from: a date string, or the build
      time (`new Date()`). */
  datatype LastModified = DateOf(date: string) | BuildTime

  datatype ChangeFrequency = Monthly | Weekly

  /** One sitemap entry; `priority` is held in tenths (1.0, 0.9, 0.8). */
  datatype Entry = Entry(url: string, lastModified: LastModified, changeFrequency: ChangeFrequency, priorityTenths: nat)

  /** The entry of `projects.map` for one project. */
  function ProjectEntry(baseUrl: string, p: Projects.Project): (e: Entry)
    ensures e.url == baseUrl + "/projects/" + p.id
    ensures e.lastModified == if Truthy(p.updatedAt) then DateOf(p.updatedAt.value) else BuildTime
  {
    Entry(baseUrl + "/projects/" + p.id,
          if Truthy(p.updatedAt) then DateOf(p.updatedAt.value) else BuildTime,
          Monthly, 8)
  }

  /** `sitemap()` for the site URL `baseUrl`. */
  function Entries(baseUrl: string, ps: seq<Projects.Project>): (r: seq<Entry>)
    ensures |r| == 2 + |ps|
    ensures r[0] == Entry(baseUrl, DateOf(LatestProjectDate(ps)), Monthly, 10)
    ensures r[1] == Entry(baseUrl + "/projects", DateOf(LatestProjectDate(ps)), Weekly, 9)
    ensures forall i :: 0 <= i < |ps| ==> r[2 + i] == ProjectEntry(baseUrl, ps[i])
  {
    var latest := LatestProjectDate(ps);
    var staticPages := [Entry(baseUrl, DateOf(latest), Monthly, 10),
                        Entry(baseUrl + "/projects", DateOf(latest), Weekly, 9)];
    var projectPages := seq(|ps|, i requires 0 <= i < |ps| => ProjectEntry(baseUrl, ps[i]));
    staticPages + projectPages
  }

  /** With the configured site URL, the static entries are `absoluteUrl('')`
      and `absoluteUrl('/projects')`, and project pages are
      `absoluteUrl('/projects/' + id)`. */
  lemma EntriesUseAbsoluteUrls(env: Wrappers.Option<string>, ps: seq<Projects.Project>)
    ensures Entries(SiteConfig.Url(env), ps)[0].url == SiteConfig.AbsoluteUrl(env, "")
    ensures Entries(SiteConfig.Url(env), ps)[1].url == SiteConfig.AbsoluteUrl(env, "/projects")
    ensures forall i :: 0 <= i < |ps| ==>
              Entries(SiteConfig.Url(env), ps)[2 + i].url == SiteConfig.AbsoluteUrl(env, "/projects/" + ps[i].id)
  {
    SiteConfig.AbsoluteUrlDefault(env);
    var u := SiteConfig.Url(env);
    forall i | 0 <= i < |ps| ensures u + "/projects/" + ps[i].id == u + ("/projects/" + ps[i].id) {
    }
  }

  /** Distinct project ids give distinct project-page URLs. */
  lemma ProjectUrlsDistinct(baseUrl: string, p: Projects.Project, q: Projects.Project)
    requires p.id != q.id
    ensures ProjectEntry(baseUrl, p).url != ProjectEntry(baseUrl, q).url
  {
    var pre := baseUrl + "/projects/";
    assert ProjectEntry(baseUrl, p).url[|pre|..] == p.id;
    assert ProjectEntry(baseUrl, q).url[|pre|..] == q.id;
  }
}
