/** The Steamworks dashboard helpers (moonlite/utils/dashboard.py; utils/dashboard.py is an older
    copy of `get_cookies` and `get_apps` with the same logic): reading the session cookies from
    the browser jar with up to three attempts, extracting app and package ids from links,
    listing the apps, and merging the package -> app map. Each browser-jar read is an input
    snapshot, and the already-parsed rows of each page are inputs. */
module Dashboard {
  import opened Wrappers
  import opened Errors
  import opened Text
  import opened Url

  /** A cookie from the browser's jar. */
  datatype Cookie = Cookie(domain: string, name: string, value: string)

  const PartnerDomain := "partner.steamgames.com"

  /** COOKIES_REQUIRED_PREFIXES. */
  const RequiredPrefixes: seq<string> := ["sessionid", "steamLoginSecure", "steamMachineAuth"]

  /** The number of times the jar is read before giving up. */
  const Tries := 3

  /** The filter of get_cookies: a partner-dashboard cookie whose name starts with `steam` or is
      `sessionid`. (The extra `cookie not in cookies` test compares a cookie object with string
      keys and is always true, so it never blocks an overwrite.) */
  predicate Kept(c: Cookie)
  {
    c.domain == PartnerDomain && (StartsWith(c.name, "steam") || c.name == "sessionid")
  }

  /** The dictionary the filter loop builds from one jar read: later cookies overwrite earlier ones. */
  function Collected(jar: seq<Cookie>): map<string, string>
  {
    if |jar| == 0 then map[]
    else
      var c := jar[|jar| - 1];
      var m := Collected(jar[..|jar| - 1]);
      if Kept(c) then m[c.name := c.value] else m
  }

  /** A name is in the dictionary exactly when some kept cookie has it, and its value is the one
      of the last kept cookie with that name. */
  lemma {:induction false} CollectedLastWins(jar: seq<Cookie>, name: string)
    ensures name in Collected(jar) <==> exists i :: 0 <= i < |jar| && Kept(jar[i]) && jar[i].name == name
    ensures name in Collected(jar) ==>
      exists i :: 0 <= i < |jar| && Kept(jar[i]) && jar[i].name == name
        && Collected(jar)[name] == jar[i].value
        && forall j :: i < j < |jar| ==> !(Kept(jar[j]) && jar[j].name == name)
  {
    if |jar| > 0 {
      var n := |jar| - 1;
      var init, c := jar[..n], jar[n];
      CollectedLastWins(init, name);
      assert forall i :: 0 <= i < n ==> init[i] == jar[i];
      if Kept(c) && c.name == name {
        assert Collected(jar) == Collected(init)[name := c.value];
        assert Kept(jar[n]) && jar[n].name == name && Collected(jar)[name] == jar[n].value;
      } else {
        assert name in Collected(jar) <==> name in Collected(init);
        if name in Collected(init) {
          assert Collected(jar)[name] == Collected(init)[name];
          var i :| 0 <= i < n && Kept(init[i]) && init[i].name == name
            && Collected(init)[name] == init[i].value
            && forall j :: i < j < n ==> !(Kept(init[j]) && init[j].name == name);
          assert Kept(jar[i]) && jar[i].name == name && Collected(jar)[name] == jar[i].value;
        }
      }
    }
  }

  /** The check of get_cookies: for every required prefix some cookie name starts with it. */
  predicate HasRequired(cookies: map<string, string>)
  {
    forall p :: p in RequiredPrefixes ==> exists name :: name in cookies && StartsWith(name, p)
  }

  /** Every kept name starts with `steam` or is `sessionid`, so the `sessionid` prefix can only be
      met by a cookie named exactly `sessionid`: an accepted dictionary always holds it. */
  lemma AcceptedHasSessionId(jar: seq<Cookie>)
    requires HasRequired(Collected(jar))
    ensures "sessionid" in Collected(jar)
  {
    assert "sessionid" in RequiredPrefixes;
    var name :| name in Collected(jar) && StartsWith(name, "sessionid");
    CollectedLastWins(jar, name);
    var i :| 0 <= i < |jar| && Kept(jar[i]) && jar[i].name == name;
    // Its second letter is the 'e' of "sessionid", not the 't' of "steam".
    assert name[1] == name[..9][1] == 'e';
    assert name[..5][1] != "steam"[1];
    assert !StartsWith(name, "steam");
  }

  /** The filter loop over one jar read. */
  method CollectCookies(jar: seq<Cookie>) returns (cookies: map<string, string>)
    ensures cookies == Collected(jar)
  {
    cookies := map[];
    for i := 0 to |jar|
      invariant cookies == Collected(jar[..i])
    {
      assert jar[..i + 1][..i] == jar[..i];
      var c := jar[i];
      if c.domain == PartnerDomain && (StartsWith(c.name, "steam") || c.name == "sessionid") {
        cookies := cookies[c.name := c.value];
      }
    }
    assert jar[..|jar|] == jar;
  }

  /** get_cookies: `snapshots[i]` is what the browser jar holds on read `i + 1`. Returns the
      cookies of the first read that passes the check, or CookiesNotFound after three failed
      attempts; `attempts` is how many times the jar was read. */
  method GetCookies(snapshots: seq<seq<Cookie>>) returns (r: Result<map<string, string>, Exc>, attempts: nat)
    requires |snapshots| == Tries
    ensures 1 <= attempts <= Tries
    ensures forall i :: 0 <= i < attempts - 1 ==> !HasRequired(Collected(snapshots[i]))
    ensures r.Success? ==> r.value == Collected(snapshots[attempts - 1]) && HasRequired(r.value)
    ensures r.Failure? ==>
      r.error == CookiesNotFound && attempts == Tries && !HasRequired(Collected(snapshots[Tries - 1]))
  {
    var tries := Tries;
    attempts := 0;
    var cookies := map[];
    while tries > 0
      invariant 0 <= tries <= Tries && attempts == Tries - tries
      invariant forall i :: 0 <= i < attempts ==> !HasRequired(Collected(snapshots[i]))
    {
      cookies := CollectCookies(snapshots[attempts]);
      attempts := attempts + 1;
      if HasRequired(cookies) {
        break;
      }
      tries := tries - 1;
    }
    if tries == 0 {
      return Failure(CookiesNotFound), attempts;
    }
    return Success(cookies), attempts;
  }

  /** The all-digit parts of a list of path segments, in order. */
  function NumericParts(parts: seq<string>): (r: seq<string>)
    ensures forall k :: 0 <= k < |r| ==> AllDigits(r[k])
  {
    if |parts| == 0 then []
    else
      var last := parts[|parts| - 1];
      NumericParts(parts[..|parts| - 1]) + (if AllDigits(last) then [last] else [])
  }

  /** The app id / package id of a link: `int` of the last all-digit segment of its (unquoted)
      path, or IndexError when the path has none. */
  function IdFromPath(path: string): Result<nat, Exc>
  {
    var numeric := NumericParts(Split(path, '/'));
    if |numeric| == 0 then Failure(IndexError) else Success(DecimalValue(numeric[|numeric| - 1]))
  }

  /** A link ending in an all-digit segment yields that segment's value. */
  lemma IdFromPathOfNumericTail(path: string, digits: string)
    requires AllDigits(digits)
    ensures IdFromPath(path + "/" + digits) == Success(DecimalValue(digits))
  {
    assert '/' !in digits by { assert forall i :: 0 <= i < |digits| ==> IsDigit(digits[i]); }
    SplitAppend(path, '/', digits);
    assert path + "/" + digits == path + ['/'] + digits;
    var parts := Split(path, '/') + [digits];
    assert parts[..|parts| - 1] == Split(path, '/');
  }

  /** A trailing segment that is not all digits does not change the id. */
  lemma IdFromPathSkipsText(path: string, segment: string)
    requires '/' !in segment && !AllDigits(segment)
    ensures IdFromPath(path + "/" + segment) == IdFromPath(path)
  {
    SplitAppend(path, '/', segment);
    assert path + "/" + segment == path + ['/'] + segment;
    var parts := Split(path, '/') + [segment];
    assert parts[..|parts| - 1] == Split(path, '/');
  }

  /** The id of a link: the path `urlparse` finds in the href, unquoted, then read as above. */
  function IdFromHref(href: string): Result<nat, Exc>
  {
    IdFromPath(Unquote(UrlParse(href).path))
  }

  /** A plain path followed by an all-digit segment is still plain and holds no `%`. */
  lemma NumericPathIsPlain(p: string, digits: string)
    requires |p| > 0 && p[0] == '/' && forall i :: 0 <= i < |p| ==> p[i] !in "#?;:%" && !IsUnsafe(p[i])
    requires AllDigits(digits)
    ensures IsPlainPath(p + "/" + digits) && '%' !in p + "/" + digits
  {
    var path := p + "/" + digits;
    forall i | 0 <= i < |path| ensures path[i] !in "#?;:%" && !IsUnsafe(path[i]) {
      if i > |p| {
        var c := digits[i - |p| - 1];
        assert path[i] == c && '0' <= c <= '9';
      } else if i < |p| {
        assert path[i] == p[i];
      } else {
        assert path[i] == '/';
      }
    }
  }

  /** A link `https://host/path/digits?query` yields the value of its digits. */
  lemma IdFromHrefOfHttpsLink(host: string, p: string, digits: string, query: string)
    requires forall i :: 0 <= i < |host| ==> host[i] !in "/?#:" && !IsUnsafe(host[i])
    requires |p| > 0 && p[0] == '/' && forall i :: 0 <= i < |p| ==> p[i] !in "#?;:%" && !IsUnsafe(p[i])
    requires AllDigits(digits)
    requires forall i :: 0 <= i < |query| ==> query[i] != '#' && !IsUnsafe(query[i])
    ensures IdFromHref("https://" + host + (p + "/" + digits) + "?" + query) == Success(DecimalValue(digits))
  {
    var path := p + "/" + digits;
    var href := "https://" + host + path + "?" + query;
    assert UrlParse(href).path == path by {
      NumericPathIsPlain(p, digits);
      assert IsPlainHost(host) && IsPlainQuery(query);
      UrlParseOfHttps(href, host, path, query);
    }
    assert Unquote(path) == path by {
      NumericPathIsPlain(p, digits);
      UnquoteAbsent(path);
    }
    IdFromPathOfNumericTail(p, digits);
  }

  /** A site-relative link is unquoted before it is split, so an escaped slash separates
      segments. */
  lemma IdFromHrefOfPath(p: string)
    requires |p| > 0 && p[0] == '/' && !StartsWith(p, "//")
    requires '#' !in p && '?' !in p && ';' !in p && forall i :: 0 <= i < |p| ==> !IsUnsafe(p[i])
    ensures IdFromHref(p) == IdFromPath(Unquote(p))
  {
    UrlParseOfPath(p);
  }

  /** One `recent_app_row` of the apps page: how many links its link divider has, the href of
      its name link, and the texts of its name link and type divider. */
  datatype AppRow = AppRow(links: nat, href: string, name: string, kind: string)

  /** One entry of get_apps' result. */
  datatype App = App(appid: nat, name: string, kind: string)

  /** The rows get_apps turns into apps: with `storePagesOnly`, rows with fewer than two links
      are skipped; order is kept. */
  function Listed(rows: seq<AppRow>, storePagesOnly: bool): (r: seq<AppRow>)
    ensures |r| <= |rows|
    ensures forall k :: 0 <= k < |r| ==> r[k] in rows && (storePagesOnly ==> r[k].links >= 2)
  {
    if |rows| == 0 then []
    else
      var last := rows[|rows| - 1];
      var init := Listed(rows[..|rows| - 1], storePagesOnly);
      assert forall x :: x in rows[..|rows| - 1] ==> x in rows;
      if storePagesOnly && last.links < 2 then init else init + [last]
  }

  /** Without the store-page filter every row is listed. */
  lemma {:induction false} ListedAll(rows: seq<AppRow>)
    ensures Listed(rows, false) == rows
  {
    if |rows| > 0 {
      ListedAll(rows[..|rows| - 1]);
      assert rows[..|rows| - 1] + [rows[|rows| - 1]] == rows;
    }
  }

  /** `app` is the entry get_apps builds from `row`. */
  predicate AppOf(row: AppRow, app: App)
  {
    IdFromHref(row.href) == Success(app.appid) && app.name == Strip(row.name) && app.kind == Strip(row.kind)
  }

  /** `apps` holds, in order, the entry built from each of the rows `listed`. */
  predicate AppsOf(listed: seq<AppRow>, apps: seq<App>)
  {
    |apps| == |listed| && forall k :: 0 <= k < |apps| ==> AppOf(listed[k], apps[k])
  }

  lemma AppsOfSnoc(listed: seq<AppRow>, apps: seq<App>, row: AppRow, app: App)
    requires AppsOf(listed, apps) && AppOf(row, app)
    ensures AppsOf(listed + [row], apps + [app])
  {
    forall k | 0 <= k < |apps|
      ensures AppOf((listed + [row])[k], (apps + [app])[k])
    {
      KeepsEarlier(listed, apps, row, app, k);
    }
  }

  lemma KeepsEarlier(listed: seq<AppRow>, apps: seq<App>, row: AppRow, app: App, k: nat)
    requires |apps| == |listed| && k < |apps|
    ensures (listed + [row])[k] == listed[k] && (apps + [app])[k] == apps[k]
  {
  }

  /** One row more of the page lists that row unless the store-page filter skips it. */
  lemma ListedStep(rows: seq<AppRow>, i: nat, storePagesOnly: bool)
    requires i < |rows|
    ensures Listed(rows[..i + 1], storePagesOnly)
            == if storePagesOnly && rows[i].links < 2 then Listed(rows[..i], storePagesOnly)
               else Listed(rows[..i], storePagesOnly) + [rows[i]]
  {
    assert rows[..i + 1][..i] == rows[..i];
  }

  /** A listed row without a numeric segment is a listed row of the whole page. */
  lemma ListedFailure(rows: seq<AppRow>, i: nat, storePagesOnly: bool)
    requires i < |rows| && !(storePagesOnly && rows[i].links < 2) && IdFromHref(rows[i].href).Failure?
    ensures exists k :: 0 <= k < |Listed(rows, storePagesOnly)| && IdFromHref(Listed(rows, storePagesOnly)[k].href).Failure?
  {
    var k := ListedIndex(rows, i, storePagesOnly);
  }

  /** A row the filter keeps is listed. */
  lemma ListedIndex(rows: seq<AppRow>, i: nat, storePagesOnly: bool) returns (k: nat)
    requires i < |rows| && !(storePagesOnly && rows[i].links < 2)
    ensures k < |Listed(rows, storePagesOnly)| && Listed(rows, storePagesOnly)[k] == rows[i]
  {
    ListedStep(rows, i, storePagesOnly);
    ListedPrefix(rows, i + 1, storePagesOnly);
    var listed := Listed(rows[..i + 1], storePagesOnly);
    k := |listed| - 1;
    assert Listed(rows, storePagesOnly)[k] == listed[k] == rows[i];
  }

  /** get_apps over the parsed rows: one app per listed row, in page order, or the IndexError of
      the first listed row whose name link has no numeric segment. */
  method GetApps(rows: seq<AppRow>, storePagesOnly: bool) returns (r: Result<seq<App>, Exc>)
    ensures r.Success? ==>
      AppsOf(Listed(rows, storePagesOnly), r.value)
    ensures r.Failure? ==>
      && r.error == IndexError
      && exists k :: 0 <= k < |Listed(rows, storePagesOnly)| && IdFromHref(Listed(rows, storePagesOnly)[k].href).Failure?
  {
    var apps: seq<App> := [];
    for i := 0 to |rows|
      invariant AppsOf(Listed(rows[..i], storePagesOnly), apps)
    {
      ListedStep(rows, i, storePagesOnly);
      var row := rows[i];
      if storePagesOnly && row.links < 2 {
        continue;
      }
      var id := IdFromHref(row.href);
      if id.Failure? {
        ListedFailure(rows, i, storePagesOnly);
        return Failure(IndexError);
      }
      var app := App(id.value, Strip(row.name), Strip(row.kind));
      AppsOfSnoc(Listed(rows[..i], storePagesOnly), apps, row, app);
      apps := apps + [app];
    }
    assert rows[..|rows|] == rows;
    r := Success(apps);
  }

  /** The rows listed from a prefix of the page are a prefix of the rows listed from the page. */
  lemma {:induction false} ListedPrefix(rows: seq<AppRow>, n: nat, storePagesOnly: bool)
    requires n <= |rows|
    ensures var p := Listed(rows[..n], storePagesOnly);
            |p| <= |Listed(rows, storePagesOnly)| && p == Listed(rows, storePagesOnly)[..|p|]
    decreases |rows|
  {
    if n < |rows| {
      ListedPrefix(rows[..|rows| - 1], n, storePagesOnly);
      assert rows[..|rows| - 1][..n] == rows[..n];
    } else {
      assert rows[..n] == rows;
    }
  }

  /** What one app's associated-packages job produced: the hrefs of the released store-package
      rows on its page, or None when fetching or parsing the page raised. */
  datatype AppPage = AppPage(appid: nat, released: Option<seq<string>>)

  /** `ids` are, in order, the ids of the links `hrefs`. */
  predicate IdsOf(hrefs: seq<string>, ids: seq<nat>)
  {
    |ids| == |hrefs| && forall k :: 0 <= k < |hrefs| ==> IdFromHref(hrefs[k]) == Success(ids[k])
  }

  lemma IdsOfExtend(hrefs: seq<string>, n: nat, ids: seq<nat>, id: nat)
    requires n < |hrefs| && IdsOf(hrefs[..n], ids) && IdFromHref(hrefs[n]) == Success(id)
    ensures IdsOf(hrefs[..n + 1], ids + [id])
  {
    forall k | 0 <= k < n + 1
      ensures IdFromHref(hrefs[..n + 1][k]) == Success((ids + [id])[k])
    {
      if k < n {
        assert hrefs[..n + 1][k] == hrefs[..n][k] && (ids + [id])[k] == ids[k];
      }
    }
  }

  /** A link without an id among the first links is a link without an id among all of them. */
  lemma IdlessPrefix(hrefs: seq<string>, n: nat)
    requires n <= |hrefs| && exists k :: 0 <= k < n && IdFromHref(hrefs[..n][k]).Failure?
    ensures exists k :: 0 <= k < |hrefs| && IdFromHref(hrefs[k]).Failure?
  {
    var k :| 0 <= k < n && IdFromHref(hrefs[..n][k]).Failure?;
    assert hrefs[..n][k] == hrefs[k];
  }

  /** The package ids an app job extracts; any row without a numeric segment makes the whole job
      raise, so the job contributes nothing. */
  function PackageIds(hrefs: seq<string>): (r: Option<seq<nat>>)
    ensures r.Some? ==> IdsOf(hrefs, r.value)
    ensures r.None? ==> exists k :: 0 <= k < |hrefs| && IdFromHref(hrefs[k]).Failure?
  {
    if |hrefs| == 0 then Some([])
    else
      var n := |hrefs| - 1;
      var init := PackageIds(hrefs[..n]);
      var last := IdFromHref(hrefs[n]);
      if init.None? then
        IdlessPrefix(hrefs, n);
        None
      else if last.Failure? then
        None
      else
        IdsOfExtend(hrefs, n, init.value, last.value);
        assert hrefs[..n + 1] == hrefs;
        Some(init.value + [last.value])
  }

  /** The package ids an app job writes into the shared map (none when the job raised). */
  function Contributed(page: AppPage): seq<nat>
  {
    if page.released.None? then []
    else match PackageIds(page.released.value)
      case None => []
      case Some(ids) => ids
  }

  /** The `with package_lock:` loop of one job: `packages[packageid] = appid` for each id in turn. */
  function Written(packages: map<nat, nat>, appid: nat, ids: seq<nat>): map<nat, nat>
  {
    if |ids| == 0 then packages
    else Written(packages, appid, ids[..|ids| - 1])[ids[|ids| - 1] := appid]
  }

  /** Writing a job's ids adds exactly those ids, all mapped to the job's app, and keeps the rest. */
  lemma {:induction false} WrittenEntries(packages: map<nat, nat>, appid: nat, ids: seq<nat>, p: nat)
    ensures p in Written(packages, appid, ids) <==> p in packages || p in ids
    ensures p in Written(packages, appid, ids) ==>
      Written(packages, appid, ids)[p] == if p in ids then appid else packages[p]
  {
    if |ids| > 0 {
      WrittenEntries(packages, appid, ids[..|ids| - 1], p);
      assert p in ids <==> p in ids[..|ids| - 1] || p == ids[|ids| - 1];
    }
  }

  /** The locked write of one finished job: its app id and the package ids it writes. */
  datatype Write = Write(appid: nat, ids: seq<nat>)

  /** The writes of the jobs, in completion order. */
  function Writes(done: seq<AppPage>): (w: seq<Write>)
  {
    seq(|done|, i requires 0 <= i < |done| => Write(done[i].appid, Contributed(done[i])))
  }

  /** The shared `packages` dict after the writes ran in order. */
  function Merged(writes: seq<Write>): map<nat, nat>
  {
    if |writes| == 0 then map[]
    else
      var last := writes[|writes| - 1];
      Written(Merged(writes[..|writes| - 1]), last.appid, last.ids)
  }

  /** A package id is in the merged map exactly when some job wrote it. */
  lemma {:induction false} MergedKeys(writes: seq<Write>, p: nat)
    ensures p in Merged(writes) <==> exists i :: 0 <= i < |writes| && p in writes[i].ids
  {
    if |writes| > 0 {
      var init := writes[..|writes| - 1];
      MergedKeys(init, p);
      WrittenEntries(Merged(init), writes[|writes| - 1].appid, writes[|writes| - 1].ids, p);
      assert forall i :: 0 <= i < |init| ==> init[i] == writes[i];
    }
  }

  /** Each merged entry maps to the app of the last job that wrote the id: later writers win. */
  lemma {:induction false} MergedLastWriterWins(writes: seq<Write>, p: nat)
    requires p in Merged(writes)
    ensures exists i ::
              && 0 <= i < |writes| && p in writes[i].ids && Merged(writes)[p] == writes[i].appid
              && (forall j :: i < j < |writes| ==> p !in writes[j].ids)
  {
    var init := writes[..|writes| - 1];
    var last := writes[|writes| - 1];
    WrittenEntries(Merged(init), last.appid, last.ids, p);
    if p !in last.ids {
      MergedLastWriterWins(init, p);
      var i :| 0 <= i < |init| && p in init[i].ids && Merged(init)[p] == init[i].appid
        && (forall j :: i < j < |init| ==> p !in init[j].ids);
      assert forall j :: 0 <= j < |init| ==> init[j] == writes[j];
    }
  }

  /** The `with package_lock:` block of one app job: write each of its package ids. */
  method WritePackages(packages: map<nat, nat>, page: AppPage) returns (updated: map<nat, nat>)
    ensures updated == Written(packages, page.appid, Contributed(page))
  {
    updated := WriteIds(packages, page.appid, Contributed(page));
  }

  /** The loop of that block: `packages[packageid] = appid` for each id in turn. */
  method WriteIds(packages: map<nat, nat>, appid: nat, ids: seq<nat>) returns (updated: map<nat, nat>)
    ensures updated == Written(packages, appid, ids)
  {
    updated := packages;
    for k := 0 to |ids|
      invariant updated == Written(packages, appid, ids[..k])
    {
      WrittenStep(packages, appid, ids, k);
      updated := updated[ids[k] := appid];
    }
    assert ids[..|ids|] == ids;
  }

  lemma WrittenStep(packages: map<nat, nat>, appid: nat, ids: seq<nat>, k: nat)
    requires k < |ids|
    ensures Written(packages, appid, ids[..k + 1]) == Written(packages, appid, ids[..k])[ids[k] := appid]
  {
    assert ids[..k + 1][..k] == ids[..k];
  }

  /** get_packages after the jobs ran: the jobs' locked blocks run in completion order `done`. */
  method GetPackages(done: seq<AppPage>) returns (packages: map<nat, nat>)
    ensures packages == Merged(Writes(done))
  {
    packages := map[];
    ghost var writes := Writes(done);
    for i := 0 to |done|
      invariant packages == Merged(writes[..i])
    {
      assert writes[..i + 1][..i] == writes[..i];
      packages := WritePackages(packages, done[i]);
    }
    assert writes[..|done|] == writes;
  }
}
