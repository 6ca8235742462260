/** The error messages of the SharePoint tools: seven categories, a builder
    per category that picks a message and a suggested solution, and
    `handle_sharepoint_error`, which classifies an exception first by the
    HTTP status of its response and then by keywords in its lower-cased
    text. */
module ErrorMessages {
  import opened Fallible
  import opened Text

  datatype Category =
    | Authentication
    | Authorization
    | Network
    | SearchQuery
    | FileNotFound
    | Configuration
    | Unknown

  /** The value of each `ErrorCategory` member. */
  function CategoryValue(c: Category): string {
    match c
    case Authentication => "authentication"
    case Authorization => "authorization"
    case Network => "network"
    case SearchQuery => "search_query"
    case FileNotFound => "file_not_found"
    case Configuration => "configuration"
    case Unknown => "unknown"
  }

  /** Distinct categories have distinct values. */
  lemma CategoryValueInjective(c: Category, d: Category)
    requires CategoryValue(c) == CategoryValue(d)
    ensures c == d
  {
  }

  /** An exception as the classifier sees it: `str(error)` and the status
      code of `error.response` when the error has a response with one. */
  datatype Failure = Failure(text: string, statusCode: Option<int>)

  /** `SharePointError`: a category, a message, a solution and the error it
      stands for. */
  datatype SharePointError = SharePointError(category: Category, message: string, solution: string, originalError: Failure)

  /** `get_formatted_message`, which is also the exception's own text. */
  function FormattedMessage(e: SharePointError): (m: string)
    ensures |m| == |e.message| + 1 + |e.solution|
  {
    e.message + " " + e.solution
  }

  /** The formatted text is the message, one space and the solution. */
  lemma FormattedMessageParts(e: SharePointError)
    ensures var m := FormattedMessage(e);
      m[..|e.message|] == e.message && m[|e.message|] == ' ' && m[|e.message| + 1..] == e.solution
  {
    var m := FormattedMessage(e);
    assert m == e.message + [' '] + e.solution;
  }

  // ---------------------------------------------------------------- keywords

  /** `any(k in s for k in keys)`. */
  function ContainsAny(s: string, keys: seq<string>): (b: bool)
    ensures b <==> exists i :: 0 <= i < |keys| && Contains(s, keys[i])
  {
    if |keys| == 0 then false
    else
      assert forall i :: 1 <= i < |keys| ==> keys[i] == keys[1..][i - 1];
      Contains(s, keys[0]) || ContainsAny(s, keys[1..])
  }

  const AuthKeywords: seq<string> := ["certificate", "private_key", "jwt", "token", "auth"]
  const AuthorizationKeywords: seq<string> := ["403", "forbidden", "access denied", "permission"]
  const NetworkKeywords: seq<string> := ["timeout", "connection", "network", "dns"]
  const SearchKeywords: seq<string> := ["query", "search"]
  const NotFoundKeywords: seq<string> := ["not found", "404"]
  const ConfigKeywords: seq<string> := ["config", "validation", "missing", "required"]

  // ---------------------------------------------------------------- builders

  const CertificateMessage := "Failed to load certificate or private key."
  const UnauthorizedMessage := "SharePoint authentication failed."
  const AuthGenericMessage := "An error occurred during authentication."
  const TimeoutMessage := "Connection to SharePoint server timed out."
  const ConnectionMessage := "Could not connect to SharePoint server."
  const NetworkGenericMessage := "A network communication error occurred."
  const FileNotFoundPrefix := "The specified file was not found: "
  const FileNotFoundGeneric := "The requested file was not found."
  const CertificateSolution := "Please verify that the certificate file path and private key file path, or their contents, are correctly configured."
  const UnauthorizedSolution := "Please verify the tenant ID, client ID, and certificate settings, and contact your administrator about the app registration status."
  const AdministratorSolution := "Please check your configuration or contact your administrator."
  const AuthorizationMessage := "Access to SharePoint was denied."
  const AuthorizationSolution := "Please check the app permissions or request SharePoint site access from your administrator."
  const TimeoutSolution := "Please check your network connection or try again after a few moments."
  const ConnectionSolution := "Please verify your internet connection and site URL."
  const NetworkGenericSolution := "Please check your network connection and try again."
  const SearchQueryMessage := "An error occurred while processing the search query."
  const SearchQuerySolution := "Please try different search keywords or specify more specific search criteria."
  const FileNotFoundSolution := "Please verify the file path is correct or obtain the correct path from the latest search results."
  const ConfigurationMessage := "There is a problem with the SharePoint configuration."
  const ConfigurationSolution := "Please check the environment variable settings and ensure all required configuration items are correctly set."
  const UnknownMessage := "An unexpected error occurred."

  /** `get_authentication_error`: a certificate or key problem first, then a
      rejected sign-in, then a generic message. */
  function GetAuthenticationError(err: Failure): (e: SharePointError)
    ensures e.category == Authentication && e.originalError == err
  {
    var t := Lower(err.text);
    if Contains(t, "certificate") || Contains(t, "private_key") then
      SharePointError(Authentication, CertificateMessage, CertificateSolution, err)
    else if Contains(t, "401") || Contains(t, "unauthorized") then
      SharePointError(Authentication, UnauthorizedMessage, UnauthorizedSolution, err)
    else
      SharePointError(Authentication, AuthGenericMessage, AdministratorSolution, err)
  }

  function GetAuthorizationError(err: Failure): (e: SharePointError)
    ensures e.category == Authorization && e.originalError == err
  {
    SharePointError(Authorization, AuthorizationMessage, AuthorizationSolution, err)
  }

  /** `get_network_error`: a timeout first, then a connection problem, then a
      generic message. */
  function GetNetworkError(err: Failure): (e: SharePointError)
    ensures e.category == Network && e.originalError == err
  {
    var t := Lower(err.text);
    if Contains(t, "timeout") then
      SharePointError(Network, TimeoutMessage, TimeoutSolution, err)
    else if Contains(t, "connection") then
      SharePointError(Network, ConnectionMessage, ConnectionSolution, err)
    else
      SharePointError(Network, NetworkGenericMessage, NetworkGenericSolution, err)
  }

  function GetSearchQueryError(err: Failure): (e: SharePointError)
    ensures e.category == SearchQuery && e.originalError == err
  {
    SharePointError(SearchQuery, SearchQueryMessage, SearchQuerySolution, err)
  }

  /** `get_file_not_found_error`: the path is named when it is given and not
      empty. */
  function GetFileNotFoundError(filePath: Option<string>, err: Failure): (e: SharePointError)
    ensures e.category == FileNotFound && e.originalError == err
  {
    var message := if filePath.Some? && filePath.value != "" then FileNotFoundPrefix + filePath.value
      else FileNotFoundGeneric;
    SharePointError(FileNotFound, message, FileNotFoundSolution, err)
  }

  function GetConfigurationError(err: Failure): (e: SharePointError)
    ensures e.category == Configuration && e.originalError == err
  {
    SharePointError(Configuration, ConfigurationMessage, ConfigurationSolution, err)
  }

  function GetUnknownError(err: Failure): (e: SharePointError)
    ensures e.category == Unknown && e.originalError == err
  {
    SharePointError(Unknown, UnknownMessage, AdministratorSolution, err)
  }

  /** The authentication message follows the order certificate or key,
      then 401 or unauthorized, then generic. */
  lemma AuthenticationMessageOrder(err: Failure)
    ensures var t := Lower(err.text);
      var m := GetAuthenticationError(err).message;
      && (m == CertificateMessage <==> Contains(t, "certificate") || Contains(t, "private_key"))
      && (m == UnauthorizedMessage <==>
            !(Contains(t, "certificate") || Contains(t, "private_key"))
            && (Contains(t, "401") || Contains(t, "unauthorized")))
      && (m == CertificateMessage || m == UnauthorizedMessage || m == AuthGenericMessage)
  {
  }

  /** The network message follows the order timeout, then connection, then
      generic. */
  lemma NetworkMessageOrder(err: Failure)
    ensures var t := Lower(err.text);
      var m := GetNetworkError(err).message;
      && (m == TimeoutMessage <==> Contains(t, "timeout"))
      && (m == ConnectionMessage <==> !Contains(t, "timeout") && Contains(t, "connection"))
      && (m == TimeoutMessage || m == ConnectionMessage || m == NetworkGenericMessage)
  {
  }

  /** The file-not-found message ends with a non-empty path it was given,
      which can be read back from it, and is the generic message otherwise. */
  lemma FileNotFoundMessagePath(filePath: Option<string>, err: Failure)
    ensures var m := GetFileNotFoundError(filePath, err).message;
      filePath.Some? && filePath.value != "" ==>
        m[..|FileNotFoundPrefix|] == FileNotFoundPrefix && m[|FileNotFoundPrefix|..] == filePath.value
    ensures filePath.None? || filePath.value == "" ==>
      GetFileNotFoundError(filePath, err).message == FileNotFoundGeneric
  {
  }

  // ---------------------------------------------------------------- classification

  /** `handle_sharepoint_error`. */
  function HandleSharePointError(error: Failure, context: string): (e: SharePointError)
    ensures e.originalError == error
  {
    var t := Lower(error.text);
    if error.statusCode == Some(401) then GetAuthenticationError(error)
    else if error.statusCode == Some(403) then GetAuthorizationError(error)
    else if error.statusCode == Some(404) && context == "download" then GetFileNotFoundError(None, error)
    else if ContainsAny(t, AuthKeywords) then GetAuthenticationError(error)
    else if ContainsAny(t, AuthorizationKeywords) then GetAuthorizationError(error)
    else if ContainsAny(t, NetworkKeywords) then GetNetworkError(error)
    else if ContainsAny(t, SearchKeywords) && context == "search" then GetSearchQueryError(error)
    else if ContainsAny(t, NotFoundKeywords) && context == "download" then GetFileNotFoundError(None, error)
    else if ContainsAny(t, ConfigKeywords) then GetConfigurationError(error)
    else GetUnknownError(error)
  }

  /** A reference form of the decision table: a row of keywords, the context
      it needs (if any) and the category it gives. */
  datatype Rule = Rule(keywords: seq<string>, context: Option<string>, category: Category)

  const KeywordRules: seq<Rule> := [
    Rule(AuthKeywords, None, Authentication),
    Rule(AuthorizationKeywords, None, Authorization),
    Rule(NetworkKeywords, None, Network),
    Rule(SearchKeywords, Some("search"), SearchQuery),
    Rule(NotFoundKeywords, Some("download"), FileNotFound),
    Rule(ConfigKeywords, None, Configuration)
  ]

  predicate Fires(rule: Rule, t: string, context: string) {
    (exists i :: 0 <= i < |rule.keywords| && Contains(t, rule.keywords[i]))
    && (rule.context.None? || rule.context.value == context)
  }

  /** The category of the first row that fires, and `Unknown` when none does. */
  function FirstFiring(rules: seq<Rule>, t: string, context: string): (c: Category)
    ensures c == Unknown || exists k :: 0 <= k < |rules| && rules[k].category == c
  {
    if |rules| == 0 then Unknown
    else if Fires(rules[0], t, context) then rules[0].category
    else
      var c := FirstFiring(rules[1..], t, context);
      assert c != Unknown ==> exists k :: 1 <= k < |rules| && rules[k].category == c by {
        if c != Unknown {
          var k :| 0 <= k < |rules[1..]| && rules[1..][k].category == c;
          assert rules[k + 1].category == c;
        }
      }
      c
  }

  /** The category a status code decides on its own. */
  function StatusCategory(statusCode: Option<int>, context: string): Option<Category> {
    if statusCode == Some(401) then Some(Authentication)
    else if statusCode == Some(403) then Some(Authorization)
    else if statusCode == Some(404) && context == "download" then Some(FileNotFound)
    else None
  }

  /** The category of an error is the status code's, when it decides one,
      and otherwise that of the first keyword row that fires on the
      lower-cased text. */
  lemma HandleFollowsTable(error: Failure, context: string)
    ensures HandleSharePointError(error, context).category ==
      match StatusCategory(error.statusCode, context)
      case Some(c) => c
      case None => FirstFiring(KeywordRules, Lower(error.text), context)
  {
    HandleCategory(error, context);
    TableInOrder(Lower(error.text), context);
  }

  /** The category of each branch of the classification. */
  lemma HandleCategory(error: Failure, context: string)
    ensures var t := Lower(error.text);
      HandleSharePointError(error, context).category ==
      if error.statusCode == Some(401) then Authentication
      else if error.statusCode == Some(403) then Authorization
      else if error.statusCode == Some(404) && context == "download" then FileNotFound
      else if ContainsAny(t, AuthKeywords) then Authentication
      else if ContainsAny(t, AuthorizationKeywords) then Authorization
      else if ContainsAny(t, NetworkKeywords) then Network
      else if ContainsAny(t, SearchKeywords) && context == "search" then SearchQuery
      else if ContainsAny(t, NotFoundKeywords) && context == "download" then FileNotFound
      else if ContainsAny(t, ConfigKeywords) then Configuration
      else Unknown
  {
  }

  /** The table read row by row, in the order the keyword groups are tried. */
  lemma TableInOrder(t: string, context: string)
    ensures FirstFiring(KeywordRules, t, context) ==
      if ContainsAny(t, AuthKeywords) then Authentication
      else if ContainsAny(t, AuthorizationKeywords) then Authorization
      else if ContainsAny(t, NetworkKeywords) then Network
      else if ContainsAny(t, SearchKeywords) && context == "search" then SearchQuery
      else if ContainsAny(t, NotFoundKeywords) && context == "download" then FileNotFound
      else if ContainsAny(t, ConfigKeywords) then Configuration
      else Unknown
  {
    var rs := KeywordRules;
    assert rs[0..] == rs && rs[6..] == [];
    FirstFiringAt(rs, 0, t, context);
    FirstFiringAt(rs, 1, t, context);
    FirstFiringAt(rs, 2, t, context);
    FirstFiringAt(rs, 3, t, context);
    FirstFiringAt(rs, 4, t, context);
    FirstFiringAt(rs, 5, t, context);
  }

  /** One step down the table: row `k` fires, or the rows after it decide. */
  lemma FirstFiringAt(rules: seq<Rule>, k: nat, t: string, context: string)
    requires k < |rules|
    ensures FirstFiring(rules[k..], t, context) ==
      if ContainsAny(t, rules[k].keywords) && (rules[k].context.None? || rules[k].context.value == context)
      then rules[k].category else FirstFiring(rules[k + 1..], t, context)
  {
    assert rules[k..][0] == rules[k];
    assert rules[k..][1..] == rules[k + 1..];
  }

  /** The message and solution of an error are those of its category's
      builder, with no file path for a file that was not found. */
  lemma HandleUsesCategoryBuilder(error: Failure, context: string)
    ensures var e := HandleSharePointError(error, context);
      e == match e.category
        case Authentication => GetAuthenticationError(error)
        case Authorization => GetAuthorizationError(error)
        case Network => GetNetworkError(error)
        case SearchQuery => GetSearchQueryError(error)
        case FileNotFound => GetFileNotFoundError(None, error)
        case Configuration => GetConfigurationError(error)
        case Unknown => GetUnknownError(error)
  {
  }

  /** A status of 401 or 403 decides the category whatever the text says. */
  lemma StatusFirst(error: Failure, context: string)
    ensures error.statusCode == Some(401) ==> HandleSharePointError(error, context).category == Authentication
    ensures error.statusCode == Some(403) ==> HandleSharePointError(error, context).category == Authorization
    ensures error.statusCode == Some(404) && context == "download" ==>
      HandleSharePointError(error, context) == GetFileNotFoundError(None, error)
  {
  }

  /** A search-query error only comes from the search context. */
  lemma SearchOnlyWhenSearching(error: Failure, context: string)
    ensures HandleSharePointError(error, context).category == SearchQuery ==> context == "search"
  {
  }

  /** A file-not-found error only comes from the download context. */
  lemma FileNotFoundOnlyWhenDownloading(error: Failure, context: string)
    ensures HandleSharePointError(error, context).category == FileNotFound ==> context == "download"
  {
  }

  /** `Unknown` is exactly the case where neither the status nor any keyword
      row decides. */
  lemma UnknownIsFallback(error: Failure, context: string)
    ensures var t := Lower(error.text);
      HandleSharePointError(error, context).category == Unknown <==>
        && StatusCategory(error.statusCode, context).None?
        && !ContainsAny(t, AuthKeywords)
        && !ContainsAny(t, AuthorizationKeywords)
        && !ContainsAny(t, NetworkKeywords)
        && !(ContainsAny(t, SearchKeywords) && context == "search")
        && !(ContainsAny(t, NotFoundKeywords) && context == "download")
        && !ContainsAny(t, ConfigKeywords)
  {
  }

  /** Without a deciding status, a text holding `auth` is an authentication
      error even where it also names a permission or a 403 (`auth` occurs in
      "authorization" and "unauthorized"). */
  lemma AuthKeywordShadows(error: Failure, context: string)
    requires StatusCategory(error.statusCode, context).None?
    requires Contains(Lower(error.text), "auth")
    ensures HandleSharePointError(error, context).category == Authentication
  {
    assert AuthKeywords[4] == "auth";
  }
}
