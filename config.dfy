/** `SharePointConfig`: the settings read from the environment (an unset
    variable reads as the empty string), the comma lists of sites, keywords,
    file extensions and OneDrive paths inside them, and the presence checks
    of the required settings. */
module Config {
  import opened Fallible
  import opened Text

  /** The string settings of `SharePointConfig`. */
  datatype Settings = Settings(
    baseUrl: string,
    siteName: string,
    onedrivePaths: string,
    tenantId: string,
    clientId: string,
    certificatePath: string,
    certificateText: string,
    privateKeyPath: string,
    privateKeyText: string)

  // ---------------------------------------------------------------- site URL

  /** `site_url`: the site under `/sites/` when a site name is set, else the
      tenant's base URL. */
  function SiteUrl(c: Settings): (u: string)
    ensures |u| >= |c.baseUrl| && u[..|c.baseUrl|] == c.baseUrl
  {
    if c.siteName != "" then c.baseUrl + "/sites/" + c.siteName else c.baseUrl
  }

  /** The site URL is the base URL, then `/sites/` and the site name when
      there is one; both can be read back from it. */
  lemma SiteUrlParts(c: Settings)
    ensures var u := SiteUrl(c);
      c.siteName != "" ==>
        |u| == |c.baseUrl| + 7 + |c.siteName|
        && u[|c.baseUrl|..|c.baseUrl| + 7] == "/sites/" && u[|c.baseUrl| + 7..] == c.siteName
    ensures c.siteName == "" ==> SiteUrl(c) == c.baseUrl
  {
  }

  // ---------------------------------------------------------------- comma lists

  /** `[p.strip() for p in parts if p.strip()]`. */
  function Cleaned(parts: seq<string>): (xs: seq<string>)
    ensures |xs| <= |parts|
    ensures forall k :: 0 <= k < |xs| ==> xs[k] != ""
  {
    if |parts| == 0 then []
    else (if Strip(parts[0]) == "" then [] else [Strip(parts[0])]) + Cleaned(parts[1..])
  }

  /** The trimmed, non-blank items of a comma-separated setting. */
  function CommaEntries(s: string): seq<string> {
    Cleaned(Split(s, ','))
  }

  /** An item as the comma lists produce it: not blank, without a comma and
      without surrounding whitespace. */
  predicate CleanItem(x: string) {
    x != "" && ',' !in x && !IsSpace(x[0]) && !IsSpace(x[|x| - 1])
  }

  /** The items are exactly the non-blank trimmed pieces between commas. */
  lemma {:induction false} CleanedMember(parts: seq<string>, x: string)
    ensures x in Cleaned(parts) <==> x != "" && exists k :: 0 <= k < |parts| && Strip(parts[k]) == x
  {
    if |parts| > 0 {
      var rest := parts[1..];
      var h := Strip(parts[0]);
      CleanedMember(rest, x);
      assert Cleaned(parts) == (if h == "" then [] else [h]) + Cleaned(rest);
      if exists k :: 0 <= k < |parts| && Strip(parts[k]) == x {
        var k :| 0 <= k < |parts| && Strip(parts[k]) == x;
        if k > 0 {
          assert rest[k - 1] == parts[k];
        }
      }
      if exists j :: 0 <= j < |rest| && Strip(rest[j]) == x {
        var j :| 0 <= j < |rest| && Strip(rest[j]) == x;
        assert parts[j + 1] == rest[j];
      }
    }
  }

  /** Every item of a comma list is clean. */
  lemma {:induction false} CleanedItems(parts: seq<string>)
    requires forall k :: 0 <= k < |parts| ==> ',' !in parts[k]
    ensures forall k :: 0 <= k < |Cleaned(parts)| ==> CleanItem(Cleaned(parts)[k])
  {
    if |parts| > 0 {
      CleanedItems(parts[1..]);
      if ',' in Strip(parts[0]) {
        StripInside(parts[0], ',');
      }
    }
  }

  /** Cleaning clean items keeps them all. */
  lemma {:induction false} CleanedOfClean(xs: seq<string>)
    requires forall k :: 0 <= k < |xs| ==> CleanItem(xs[k])
    ensures Cleaned(xs) == xs
  {
    if |xs| > 0 {
      var rest := xs[1..];
      assert forall k :: 0 <= k < |rest| ==> rest[k] == xs[k + 1];
      StripClean(xs[0]);
      CleanedOfClean(rest);
      assert Cleaned(xs) == [xs[0]] + Cleaned(rest);
      assert xs == [xs[0]] + rest;
    }
  }

  /** Joining clean items with commas and reading the list back gives the
      items, in order. */
  lemma CommaEntriesOfJoin(xs: seq<string>)
    requires forall k :: 0 <= k < |xs| ==> CleanItem(xs[k])
    ensures CommaEntries(Join(xs, ',')) == xs
  {
    if |xs| == 0 {
      assert Split([], ',') == [[]];
      assert Strip([]) == [];
    } else {
      SplitJoin(xs, ',');
      CleanedOfClean(xs);
    }
  }

  /** Every item of a comma-separated setting is clean. */
  lemma CommaEntriesClean(s: string)
    ensures forall k :: 0 <= k < |CommaEntries(s)| ==> CleanItem(CommaEntries(s)[k])
  {
    CleanedItems(Split(s, ','));
  }

  // ---------------------------------------------------------------- sites and keywords

  /** The items that are not keywords (`@onedrive`, `@all`). */
  function PlainSites(xs: seq<string>): (ys: seq<string>)
    ensures |ys| <= |xs|
  {
    if |xs| == 0 then []
    else (if StartsWith(xs[0], "@") then [] else [xs[0]]) + PlainSites(xs[1..])
  }

  /** `sites`: the site names in `siteName`, keywords left out. */
  function Sites(c: Settings): (sites: seq<string>)
    ensures |sites| <= |CommaEntries(c.siteName)|
  {
    if c.siteName == "" then [] else PlainSites(CommaEntries(c.siteName))
  }

  /** The plain items are the items that do not start with `@`. */
  lemma {:induction false} PlainSitesMember(xs: seq<string>, y: string)
    ensures y in PlainSites(xs) <==> y in xs && !StartsWith(y, "@")
  {
    if |xs| > 0 {
      PlainSitesMember(xs[1..], y);
      assert xs == [xs[0]] + xs[1..];
    }
  }

  /** The sites are the items of the site name that are not keywords. */
  lemma SitesMember(c: Settings, s: string)
    ensures s in Sites(c) <==> s in CommaEntries(c.siteName) && !StartsWith(s, "@")
  {
    if s in CommaEntries(c.siteName) {
      EntriesNotEmpty(c.siteName);
    }
    PlainSitesMember(CommaEntries(c.siteName), s);
  }

  /** `include_onedrive`: the `@onedrive` keyword is given and so are OneDrive
      paths. */
  predicate IncludeOnedrive(c: Settings): (b: bool)
    ensures b ==> c.onedrivePaths != "" && "@onedrive" !in Sites(c)
  {
    PlainSitesMember(CommaEntries(c.siteName), "@onedrive");
    c.siteName != "" && "@onedrive" in CommaEntries(c.siteName) && c.onedrivePaths != ""
  }

  /** `has_multiple_targets`: OneDrive, more than one site, or `@all`. */
  predicate HasMultipleTargets(c: Settings): (b: bool)
    ensures IncludeOnedrive(c) || |Sites(c)| > 1 ==> b
  {
    c.siteName != "" && (IncludeOnedrive(c) || |Sites(c)| > 1 || "@all" in CommaEntries(c.siteName))
  }

  /** `is_site_specific`. */
  predicate IsSiteSpecific(c: Settings): (b: bool)
    ensures b ==> |Sites(c)| <= 1 && !IncludeOnedrive(c)
  {
    c.siteName != "" && !HasMultipleTargets(c)
  }

  /** Plain site names keep their order and are all kept. */
  lemma {:induction false} PlainSitesOfPlain(xs: seq<string>)
    requires forall k :: 0 <= k < |xs| ==> !StartsWith(xs[k], "@")
    ensures PlainSites(xs) == xs
  {
    if |xs| > 0 {
      PlainSitesOfPlain(xs[1..]);
    }
  }

  /** A site name list made of plain names gives back those names, in order. */
  lemma SitesOfNames(c: Settings, names: seq<string>)
    requires forall k :: 0 <= k < |names| ==> CleanItem(names[k]) && !StartsWith(names[k], "@")
    requires c.siteName == Join(names, ',')
    ensures Sites(c) == names
  {
    CommaEntriesOfJoin(names);
    if c.siteName != "" {
      PlainSitesOfPlain(names);
    }
  }

  /** One plain site name: the search is limited to that site, and its URL
      is the site's. */
  lemma SingleSite(c: Settings)
    requires CleanItem(c.siteName) && !StartsWith(c.siteName, "@")
    ensures Sites(c) == [c.siteName]
    ensures IsSiteSpecific(c) && !IncludeOnedrive(c)
    ensures SiteUrl(c) == c.baseUrl + "/sites/" + c.siteName
  {
    SitesOfNames(c, [c.siteName]);
    CommaEntriesOfJoin([c.siteName]);
  }

  /** A site name that is a single keyword (`@all`, `@onedrive`) names no
      site. */
  lemma KeywordAlone(c: Settings)
    requires CleanItem(c.siteName) && StartsWith(c.siteName, "@")
    ensures CommaEntries(c.siteName) == [c.siteName] && Sites(c) == []
  {
    CommaEntriesOfJoin([c.siteName]);
  }

  /** `@all` searches the whole tenant: several targets, so not one site. */
  lemma AllKeyword(c: Settings)
    requires "@all" in CommaEntries(c.siteName)
    ensures HasMultipleTargets(c)
  {
    EntriesNotEmpty(c.siteName);
  }

  /** With the `@onedrive` keyword, OneDrive is included exactly when
      OneDrive paths are given (and then there are several targets). */
  lemma OnedriveKeyword(c: Settings)
    requires "@onedrive" in CommaEntries(c.siteName)
    ensures IncludeOnedrive(c) <==> c.onedrivePaths != ""
  {
    EntriesNotEmpty(c.siteName);
  }

  /** A setting with items is not empty. */
  lemma EntriesNotEmpty(s: string)
    requires |CommaEntries(s)| > 0
    ensures s != ""
  {
    NoEntriesOfEmpty();
  }

  /** The empty setting has no items. */
  lemma NoEntriesOfEmpty()
    ensures CommaEntries("") == []
  {
    assert Split("", ',') == [""];
    assert |Strip("")| == 0;
  }

  /** A site-specific configuration names at most one site, has no `@all`
      and does not include OneDrive. */
  lemma SiteSpecificHasOneSite(c: Settings)
    requires IsSiteSpecific(c)
    ensures |Sites(c)| <= 1 && !IncludeOnedrive(c) && "@all" !in CommaEntries(c.siteName)
  {
  }

  // ---------------------------------------------------------------- file extensions

  /** Every item lower-cased. */
  function LowerAll(xs: seq<string>): (ys: seq<string>)
    ensures |ys| == |xs| && forall k :: 0 <= k < |xs| ==> ys[k] == Lower(xs[k])
  {
    seq(|xs|, k requires 0 <= k < |xs| => Lower(xs[k]))
  }

  /** `_parse_file_extensions`. */
  function ParseFileExtensions(s: string): (exts: seq<string>)
    ensures |exts| == |CommaEntries(s)|
    ensures forall k :: 0 <= k < |exts| ==> exts[k] == Lower(CommaEntries(s)[k])
  {
    if s == "" then NoEntriesOfEmpty(); [] else LowerAll(CommaEntries(s))
  }

  /** Every item of the setting, in order and with repeats, lower-cased: only
      blank items are dropped. */
  lemma ParseFileExtensionsAll(s: string)
    ensures ParseFileExtensions(s) == LowerAll(CommaEntries(s))
    ensures |ParseFileExtensions(s)| == |CommaEntries(s)|
  {
    var exts := ParseFileExtensions(s);
    var lowered := LowerAll(CommaEntries(s));
    assert |exts| == |lowered|;
    forall k | 0 <= k < |exts| ensures exts[k] == lowered[k] {
    }
  }

  /** Worked case: a repeated extension in another case is kept twice. */
  lemma ExtensionsKeepRepeats()
    ensures ParseFileExtensions("pdf,PDF") == ["pdf", "pdf"]
  {
    ExtensionsTexts();
    ExtensionsOfItems();
  }

  lemma ExtensionsTexts()
    ensures "pdf,PDF" == Join(["pdf", "PDF"], ',')
    ensures LowerAll(["pdf", "PDF"]) == ["pdf", "pdf"]
  {
    assert Lower("PDF") == "pdf" by {
      assert Lower("PDF")[0] == 'p' && Lower("PDF")[1] == 'd' && Lower("PDF")[2] == 'f';
    }
    assert Lower("pdf") == "pdf" by {
      assert Lower("pdf")[0] == 'p' && Lower("pdf")[1] == 'd' && Lower("pdf")[2] == 'f';
    }
  }

  lemma ExtensionsOfItems()
    ensures ParseFileExtensions(Join(["pdf", "PDF"], ',')) == LowerAll(["pdf", "PDF"])
  {
    assert CleanItem("pdf") && CleanItem("PDF");
    CommaEntriesOfJoin(["pdf", "PDF"]);
    ParseFileExtensionsAll(Join(["pdf", "PDF"], ','));
  }

  predicate NoCapitals(x: string) {
    forall i :: 0 <= i < |x| ==> !('A' <= x[i] <= 'Z')
  }

  /** Lower-casing text without capitals changes nothing. */
  lemma LowerUnchanged(x: string)
    requires NoCapitals(x)
    ensures Lower(x) == x
  {
  }

  /** Parsing a comma list of clean lower-case extensions gives them back. */
  lemma ExtensionsOfJoin(xs: seq<string>)
    requires forall k :: 0 <= k < |xs| ==> CleanItem(xs[k]) && NoCapitals(xs[k])
    ensures ParseFileExtensions(Join(xs, ',')) == xs
  {
    var s := Join(xs, ',');
    if s != "" {
      CommaEntriesOfJoin(xs);
      forall k | 0 <= k < |xs| ensures Lower(xs[k]) == xs[k] {
        LowerUnchanged(xs[k]);
      }
    }
  }

  /** Each parsed extension is lower-case, not blank and has no comma, and
      there are no more extensions than pieces between commas. */
  lemma ExtensionsClean(s: string)
    ensures forall k :: 0 <= k < |ParseFileExtensions(s)| ==>
      var e := ParseFileExtensions(s)[k];
      e != "" && ',' !in e && NoCapitals(e)
    ensures |ParseFileExtensions(s)| <= |Split(s, ',')|
  {
    if s != "" {
      var xs := CommaEntries(s);
      CommaEntriesClean(s);
      forall k | 0 <= k < |xs| ensures Lower(xs[k]) != "" && ',' !in Lower(xs[k]) && NoCapitals(Lower(xs[k])) {
        LowerOfClean(xs[k]);
      }
    }
  }

  /** Lower-casing an item keeps it non-blank and free of commas, and leaves
      no capital in it. */
  lemma LowerOfClean(x: string)
    requires CleanItem(x)
    ensures Lower(x) != "" && ',' !in Lower(x) && NoCapitals(Lower(x))
  {
    var y := Lower(x);
    forall i | 0 <= i < |y| ensures y[i] != ',' {
      assert x[i] in x;
    }
  }

  /** The extensions are the lower-cased items of the setting, in order. */
  lemma ExtensionsMember(s: string, x: string)
    requires s != ""
    ensures x in ParseFileExtensions(s) <==> exists k :: 0 <= k < |CommaEntries(s)| && Lower(CommaEntries(s)[k]) == x
  {
    var xs := CommaEntries(s);
    var ys := ParseFileExtensions(s);
    if x in ys {
      var k :| 0 <= k < |ys| && ys[k] == x;
      assert Lower(xs[k]) == x;
    }
  }

  // ---------------------------------------------------------------- OneDrive paths

  /** One entry of `parse_onedrive_paths`' result. */
  datatype OnedriveTarget = OnedriveTarget(email: string, folderPath: string, onedrivePath: string)

  /** The e-mail and folder of an entry: split at its first `:`, both halves
      trimmed; without a `:` the whole entry is the e-mail. */
  datatype EntryParts = EntryParts(email: string, folderPath: string)

  function ParseEntry(entry: string): (p: EntryParts)
    ensures ':' !in entry ==> p == EntryParts(Strip(entry), "")
    ensures ':' in entry ==> exists a, b :: entry == a + [':'] + b && ':' !in a && p == EntryParts(Strip(a), Strip(b))
  {
    if ':' in entry then
      var halves := SplitFirst(entry, ':');
      EntryParts(Strip(halves.0), Strip(halves.1))
    else EntryParts(Strip(entry), "")
  }

  /** `_email_to_onedrive_path`: `personal/`, the e-mail with `@` and `.`
      turned into `_`, and the folder without its leading slashes when any
      of it is left. */
  function EmailToOnedrivePath(email: string, folderPath: string): (path: string)
    ensures |path| >= 9 + |email| && path[..9] == "personal/"
  {
    var user := ReplaceChar(ReplaceChar(email, '@', '_'), '.', '_');
    var path := "personal/" + user;
    if folderPath != "" then
      var folder := LStripChar(folderPath, '/');
      if folder != "" then path + "/" + folder else path
    else path
  }

  /** The OneDrive path reads as `personal/`, a user part as long as the
      e-mail with neither `@` nor `.` in it (every other character kept), and
      then `/` and the folder exactly when the folder is not only slashes. */
  lemma OnedrivePathParts(email: string, folderPath: string)
    ensures var r := EmailToOnedrivePath(email, folderPath);
      var n := 9 + |email|;
      && |r| >= n && r[..9] == "personal/"
      && '@' !in r[9..n] && '.' !in r[9..n]
      && (forall i :: 0 <= i < |email| && email[i] != '@' && email[i] != '.' ==> r[9 + i] == email[i])
    ensures var r := EmailToOnedrivePath(email, folderPath);
      var n := 9 + |email|;
      var folder := LStripChar(folderPath, '/');
      && (folder == "" ==> |r| == n)
      && (folder != "" ==> r[n] == '/' && r[n + 1..] == folder)
  {
    var r := EmailToOnedrivePath(email, folderPath);
    var user := ReplaceChar(ReplaceChar(email, '@', '_'), '.', '_');
    UserPart(email);
    var path := "personal/" + user;
    assert path[..9] == "personal/" && path[9..] == user;
    var folder := LStripChar(folderPath, '/');
    if folderPath != "" && folder != "" {
      assert r == path + "/" + folder;
      assert r[..|path|] == path;
      assert r[|path|] == '/' && r[|path| + 1..] == folder;
    } else {
      assert folderPath == "" ==> folder == "";
      assert r == path;
    }
  }

  /** The user part: as long as the e-mail, without `@` and `.`, and every
      other character kept. */
  lemma UserPart(email: string)
    ensures var user := ReplaceChar(ReplaceChar(email, '@', '_'), '.', '_');
      && |user| == |email| && '@' !in user && '.' !in user
      && forall i :: 0 <= i < |email| && email[i] != '@' && email[i] != '.' ==> user[i] == email[i]
  {
  }

  /** The target an entry stands for, or `None` for an e-mail without `@`. */
  function TargetOf(entry: string): Option<OnedriveTarget> {
    var p := ParseEntry(entry);
    if '@' !in p.email then None
    else Some(OnedriveTarget(p.email, p.folderPath, EmailToOnedrivePath(p.email, p.folderPath)))
  }

  /** The target of an entry as a list of zero or one targets. */
  function TargetsAt(entry: string): seq<OnedriveTarget> {
    match TargetOf(entry)
    case None => []
    case Some(t) => [t]
  }

  /** The targets of a list of entries, in order. */
  function TargetsOf(entries: seq<string>): seq<OnedriveTarget> {
    if |entries| == 0 then []
    else TargetsOf(entries[..|entries| - 1]) + TargetsAt(entries[|entries| - 1])
  }

  /** `parse_onedrive_paths`: the targets of the entries of `onedrivePaths`. */
  method ParseOnedrivePaths(c: Settings) returns (result: seq<OnedriveTarget>)
    ensures result == if c.onedrivePaths == "" then [] else TargetsOf(CommaEntries(c.onedrivePaths))
  {
    if c.onedrivePaths == "" {
      return [];
    }
    result := CollectTargets(CommaEntries(c.onedrivePaths));
  }

  /** The loop of `parse_onedrive_paths` over the entries, in order. */
  method CollectTargets(entries: seq<string>) returns (result: seq<OnedriveTarget>)
    ensures result == TargetsOf(entries)
  {
    result := [];
    var i := 0;
    while i < |entries|
      invariant 0 <= i <= |entries|
      invariant result == TargetsOf(entries[..i])
    {
      var target := EntryTarget(entries[i]);
      assert entries[..i + 1][..i] == entries[..i];
      if target.Some? {
        result := result + [target.value];
      }
      i := i + 1;
    }
    assert entries[..i] == entries;
  }

  /** One turn of the loop of `parse_onedrive_paths`: the entry's e-mail and
      folder, and its target unless the e-mail has no `@`. */
  method EntryTarget(entry: string) returns (target: Option<OnedriveTarget>)
    ensures target == TargetOf(entry)
  {
    var email: string;
    var folderPath: string;
    if ':' in entry {
      var halves := SplitFirst(entry, ':');
      email := Strip(halves.0);
      folderPath := Strip(halves.1);
    } else {
      email := Strip(entry);
      folderPath := "";
    }
    if '@' !in email {
      return None;
    }
    var onedrivePath := EmailToOnedrivePath(email, folderPath);
    target := Some(OnedriveTarget(email, folderPath, onedrivePath));
  }

  /** `get_onedrive_targets`: the OneDrive targets, only when OneDrive is
      included. */
  method GetOnedriveTargets(c: Settings) returns (targets: seq<OnedriveTarget>)
    ensures targets == if IncludeOnedrive(c) then TargetsOf(CommaEntries(c.onedrivePaths)) else []
  {
    if !IncludeOnedrive(c) {
      return [];
    }
    targets := ParseOnedrivePaths(c);
  }

  /** Taking the targets of two lists one after the other keeps their order. */
  lemma {:induction false} TargetsOfAppend(a: seq<string>, b: seq<string>)
    ensures TargetsOf(a + b) == TargetsOf(a) + TargetsOf(b)
    decreases |b|
  {
    if |b| == 0 {
      assert a + b == a;
    } else {
      var b' := b[..|b| - 1];
      assert (a + b)[..|a + b| - 1] == a + b';
      assert (a + b)[|a + b| - 1] == b[|b| - 1];
      TargetsOfAppend(a, b');
      var last := TargetsAt(b[|b| - 1]);
      assert TargetsOf(a + b) == TargetsOf(a + b') + last;
      assert TargetsOf(b) == TargetsOf(b') + last;
      assert (TargetsOf(a) + TargetsOf(b')) + last == TargetsOf(a) + (TargetsOf(b') + last);
    }
  }

  /** Each target has an `@` in its e-mail and the OneDrive path of its
      e-mail and folder, and comes from an entry; each entry whose e-mail has
      an `@` gives a target. */
  lemma {:induction false} TargetsOfMember(entries: seq<string>, t: OnedriveTarget)
    ensures t in TargetsOf(entries) <==> exists k :: 0 <= k < |entries| && TargetOf(entries[k]) == Some(t)
    ensures t in TargetsOf(entries) ==> '@' in t.email && t.onedrivePath == EmailToOnedrivePath(t.email, t.folderPath)
  {
    if |entries| > 0 {
      var init := entries[..|entries| - 1];
      TargetsOfMember(init, t);
      if exists k :: 0 <= k < |entries| && TargetOf(entries[k]) == Some(t) {
        var k :| 0 <= k < |entries| && TargetOf(entries[k]) == Some(t);
        if k < |entries| - 1 {
          assert init[k] == entries[k];
        }
      }
    }
  }

  // ---------------------------------------------------------------- validation

  const BaseUrlRequired := "SHAREPOINT_BASE_URL is required"
  const TenantIdRequired := "SHAREPOINT_TENANT_ID is required"
  const ClientIdRequired := "SHAREPOINT_CLIENT_ID is required"
  const CertificateRequired := "Either SHAREPOINT_CERTIFICATE_PATH" + " or SHAREPOINT_CERTIFICATE_TEXT is required"
  const CertificateNotFound := "Certificate file not found: "
  const PrivateKeyRequired := "Either SHAREPOINT_PRIVATE_KEY_PATH" + " or SHAREPOINT_PRIVATE_KEY_TEXT is required"
  const PrivateKeyNotFound := "Private key file not found: "

  /** The error of a credential given as a file path or as text: neither is
      given, or the path names no file. */
  function CredentialErrors(path: string, text: string, fileExists: string -> bool, missing: string, notFound: string): seq<string> {
    if path == "" && text == "" then [missing]
    else if path != "" && !fileExists(path) then [notFound + path]
    else []
  }

  /** The errors `validate` reports, in order; `fileExists` stands for
      `Path(p).exists()`. */
  function ValidationErrors(c: Settings, fileExists: string -> bool): (errors: seq<string>)
    ensures c.baseUrl == "" ==> |errors| > 0 && errors[0] == BaseUrlRequired
    ensures |errors| == 0 ==> c.baseUrl != "" && c.tenantId != "" && c.clientId != ""
  {
    (if c.baseUrl == "" then [BaseUrlRequired] else [])
    + (if c.tenantId == "" then [TenantIdRequired] else [])
    + (if c.clientId == "" then [ClientIdRequired] else [])
    + CredentialErrors(c.certificatePath, c.certificateText, fileExists, CertificateRequired, CertificateNotFound)
    + CredentialErrors(c.privateKeyPath, c.privateKeyText, fileExists, PrivateKeyRequired, PrivateKeyNotFound)
  }

  /** `validate`: the checks in order, each appending at most one error. */
  method Validate(c: Settings, fileExists: string -> bool) returns (errors: seq<string>)
    ensures errors == ValidationErrors(c, fileExists)
  {
    errors := [];
    if c.baseUrl == "" {
      errors := errors + [BaseUrlRequired];
    }
    if c.tenantId == "" {
      errors := errors + [TenantIdRequired];
    }
    if c.clientId == "" {
      errors := errors + [ClientIdRequired];
    }
    errors := CheckCredential(errors, c.certificatePath, c.certificateText, fileExists, CertificateRequired, CertificateNotFound);
    errors := CheckCredential(errors, c.privateKeyPath, c.privateKeyText, fileExists, PrivateKeyRequired, PrivateKeyNotFound);
  }

  /** One credential check of `validate`: appends the error of a credential
      given neither as a path nor as text, or of a path that names no file. */
  method CheckCredential(errors: seq<string>, path: string, text: string, fileExists: string -> bool,
                         missing: string, notFound: string)
    returns (errors': seq<string>)
    ensures errors' == errors + CredentialErrors(path, text, fileExists, missing, notFound)
  {
    errors' := errors;
    if path == "" && text == "" {
      errors' := errors' + [missing];
    } else if path != "" && !fileExists(path) {
      errors' := errors' + [notFound + path];
    }
  }

  /** `is_valid`: `validate` reports nothing. */
  predicate IsValid(c: Settings, fileExists: string -> bool): (b: bool)
    ensures b ==> c.baseUrl != "" && c.tenantId != "" && c.clientId != ""
    ensures b ==> (c.certificatePath != "" || c.certificateText != "") && (c.privateKeyPath != "" || c.privateKeyText != "")
  {
    |ValidationErrors(c, fileExists)| == 0
  }

  /** The characters that tell the messages of `validate` apart: the three
      required-setting messages differ after `SHAREPOINT_`, the two credential
      messages after `Either SHAREPOINT_`, and a file-not-found message starts
      with neither `S` nor `E`. */
  lemma MessageMarks()
    ensures BaseUrlRequired[0] == 'S' && BaseUrlRequired[11] == 'B'
    ensures TenantIdRequired[0] == 'S' && TenantIdRequired[11] == 'T'
    ensures ClientIdRequired[0] == 'S' && ClientIdRequired[11] == 'C'
    ensures CertificateRequired[0] == 'E' && CertificateRequired[18] == 'C'
    ensures PrivateKeyRequired[0] == 'E' && PrivateKeyRequired[18] == 'P'
    ensures forall p :: (CertificateNotFound + p)[0] == 'C'
    ensures forall p :: (PrivateKeyNotFound + p)[0] == 'P'
  {
  }

  /** A missing base URL is reported, and only then. */
  lemma BaseUrlReported(c: Settings, fileExists: string -> bool)
    ensures BaseUrlRequired in ValidationErrors(c, fileExists) <==> c.baseUrl == ""
  {
    MessageMarks();
  }

  /** A missing tenant id is reported, and only then. */
  lemma TenantIdReported(c: Settings, fileExists: string -> bool)
    ensures TenantIdRequired in ValidationErrors(c, fileExists) <==> c.tenantId == ""
  {
    MessageMarks();
  }

  /** A missing client id is reported, and only then. */
  lemma ClientIdReported(c: Settings, fileExists: string -> bool)
    ensures ClientIdRequired in ValidationErrors(c, fileExists) <==> c.clientId == ""
  {
    MessageMarks();
  }

  /** A certificate given neither as a path nor as text is reported, and
      only then. */
  lemma CertificateReported(c: Settings, fileExists: string -> bool)
    ensures CertificateRequired in ValidationErrors(c, fileExists) <==>
      c.certificatePath == "" && c.certificateText == ""
  {
    MessageMarks();
  }

  /** A private key given neither as a path nor as text is reported, and
      only then. */
  lemma PrivateKeyReported(c: Settings, fileExists: string -> bool)
    ensures PrivateKeyRequired in ValidationErrors(c, fileExists) <==>
      c.privateKeyPath == "" && c.privateKeyText == ""
  {
    MessageMarks();
  }

  /** A certificate path that names no file is reported even when the
      certificate text is given. */
  lemma MissingCertificateFileReported(c: Settings, fileExists: string -> bool)
    requires c.certificatePath != "" && !fileExists(c.certificatePath)
    ensures CertificateNotFound + c.certificatePath in ValidationErrors(c, fileExists)
  {
  }

  /** A configuration is valid exactly when every required setting is
      present and each credential path given names a file. */
  lemma IsValidIff(c: Settings, fileExists: string -> bool)
    ensures IsValid(c, fileExists) <==>
      && c.baseUrl != "" && c.tenantId != "" && c.clientId != ""
      && (c.certificatePath != "" || c.certificateText != "")
      && (c.certificatePath == "" || fileExists(c.certificatePath))
      && (c.privateKeyPath != "" || c.privateKeyText != "")
      && (c.privateKeyPath == "" || fileExists(c.privateKeyPath))
  {
  }

  /** At most one error per required setting and credential. */
  lemma AtMostFiveErrors(c: Settings, fileExists: string -> bool)
    ensures |ValidationErrors(c, fileExists)| <= 5
  {
  }
}
