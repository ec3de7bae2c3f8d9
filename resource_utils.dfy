/**
 * URL helpers of the inspector front-end (`ResourceUtils.js`): resolving an
 * href against a base URL, the rules that decide when a node's URL is used as
 * it is, and the text of a resource link. `asParsedURL` is not part of this
 * model and is a parameter.
 */
module ResourceUtils {
  import opened JsRuntime

  /** What `asParsedURL` yields: the parts of an absolute URL (`port` is "" when absent). */
  datatype ParsedURL = ParsedURL(scheme: string, host: string, port: string, path: string)

  /** `scheme://host[:port]` of a parsed base URL. */
  function Origin(u: ParsedURL): string
  {
    u.scheme + "://" + u.host + (if u.port != [] then ":" + u.port else [])
  }

  /** The href is returned as it is: it parses with a scheme, or its trimmed text is a data: or javascript: URL. */
  predicate KeptAsIs(parse: string -> Option<ParsedURL>, href: string)
  {
    href != [] &&
    ((parse(href).Some? && parse(href).value.scheme != []) ||
     StartsWith(Trim(href), "data:") || StartsWith(Trim(href), "javascript:"))
  }

  /** The base path with its query cut off (only when the '?' is not the first character). */
  function QueryTrimmed(basePath: string): string
  {
    var questionMarkIndex := IndexOfChar(basePath, '?');
    if questionMarkIndex > 0 then basePath[..questionMarkIndex] else basePath
  }

  /** The prefix a relative href is appended to: the text before '?' for a query, else the directory. */
  function RelativePrefix(basePath: string, path: string): string
  {
    var trimmed := QueryTrimmed(basePath);
    if path != [] && path[0] == '?' then
      var cut := IndexOfChar(trimmed, '?');
      if cut != -1 then trimmed[..cut] else trimmed
    else SubstringTo(trimmed, LastIndexOfChar(trimmed, '/')) + "/"
  }

  /** An href that is not kept as it is, resolved against a parsed base URL. */
  function Resolve(u: ParsedURL, href: string): string
  {
    if href == [] || href[0] != '/' then Origin(u) + (RelativePrefix(u.path, href) + href)
    else if |href| > 1 && href[1] == '/' then u.scheme + ":" + href
    else Origin(u) + href
  }

  /**
   * `completeURL` (`indexOf` of a one-character string is `IndexOfChar`, see
   * `IndexOfOneChar`): an absolute or special href comes back as it is;
   * otherwise the base must parse (else `None`, the source's null) and the href
   * is resolved against it.
   */
  function CompleteURL(parse: string -> Option<ParsedURL>, baseURL: string, href: string): (r: Option<string>)
    ensures KeptAsIs(parse, href) ==> r == Some(href)
    ensures !KeptAsIs(parse, href) ==> (r.Some? <==> parse(baseURL).Some?)
    ensures !KeptAsIs(parse, href) && r.Some? ==> r.value == Resolve(parse(baseURL).value, href)
  {
    if KeptAsIs(parse, href) then Some(href)
    else match parse(baseURL)
      case None => None
      case Some(u) => Some(Resolve(u, href))
  }

  /** An href starting with "//" keeps only the base's scheme. */
  lemma ProtocolRelative(u: ParsedURL, href: string)
    requires |href| >= 2 && href[..2] == "//"
    ensures Resolve(u, href) == u.scheme + ":" + href
  {
    assert href[0] == '/' && href[1] == '/';
  }

  /** An href with a single leading '/' is resolved against the base's origin. */
  lemma RootRelative(u: ParsedURL, href: string)
    requires |href| >= 1 && href[0] == '/' && !(|href| > 1 && href[1] == '/')
    ensures Resolve(u, href) == Origin(u) + href
  {
  }

  /** The index of the first '?' of `s`, or its length. */
  lemma BeforeQuery(s: string) returns (k: nat)
    ensures k <= |s| && (forall i :: 0 <= i < k ==> s[i] != '?') && (k == |s| || s[k] == '?')
    ensures QueryTrimmed(s) == s[..k] || (k == 0 && QueryTrimmed(s) == s)
  {
    var q := IndexOfChar(s, '?');
    k := if q == -1 then |s| else q;
    assert s[..|s|] == s;
  }

  /**
   * An href starting with '?' replaces the base's query: the result is the origin,
   * the base path before its first '?', then the href.
   */
  lemma QueryRelative(u: ParsedURL, href: string)
    requires |href| >= 1 && href[0] == '?'
    ensures exists k :: 0 <= k <= |u.path| && (forall i :: 0 <= i < k ==> u.path[i] != '?') &&
                        (k == |u.path| || u.path[k] == '?') &&
                        Resolve(u, href) == Origin(u) + (u.path[..k] + href)
  {
    var k := BeforeQuery(u.path);
    var trimmed := QueryTrimmed(u.path);
    var cut := IndexOfChar(trimmed, '?');
    if trimmed == u.path[..k] {
      if cut != -1 {
        assert false;
      }
    }
    assert RelativePrefix(u.path, href) == u.path[..k];
  }

  /**
   * Any other relative href is appended to the base directory: the query-free
   * base path up to and including its last '/', or "/" when it has none.
   */
  lemma DirectoryRelative(u: ParsedURL, href: string)
    requires href == [] || (href[0] != '/' && href[0] != '?')
    ensures var trimmed := QueryTrimmed(u.path);
            exists dir :: Resolve(u, href) == Origin(u) + (dir + href) &&
                          |dir| >= 1 && dir[|dir| - 1] == '/' &&
                          ((dir == "/" && forall i :: 0 <= i < |trimmed| ==> trimmed[i] != '/') ||
                           (|dir| <= |trimmed| && dir == trimmed[..|dir|] &&
                            forall i :: |dir| <= i < |trimmed| ==> trimmed[i] != '/'))
  {
    var trimmed := QueryTrimmed(u.path);
    var slash := LastIndexOfChar(trimmed, '/');
    var dir := SubstringTo(trimmed, slash) + "/";
    assert RelativePrefix(u.path, href) == dir;
    if slash >= 0 {
      assert dir == trimmed[..slash + 1];
    }
  }

  /** The first ancestor, from the node upwards, with a document URL; -1 when there is none. */
  function FirstDocument(documentURLs: seq<string>): (k: int)
    ensures -1 <= k < |documentURLs| && (k >= 0 ==> documentURLs[k] != [])
    ensures forall j :: 0 <= j < |documentURLs| && (k == -1 || j < k) ==> documentURLs[j] == []
  {
    if documentURLs == [] then -1
    else if documentURLs[0] != [] then 0
    else
      var k := FirstDocument(documentURLs[1..]);
      if k == -1 then -1 else k + 1
  }

  /** The nearest document URL's resolution of `url`, when it yields a non-empty URL. */
  function NearestResolution(parse: string -> Option<ParsedURL>, documentURLs: seq<string>, url: string): Option<string>
  {
    var k := FirstDocument(documentURLs);
    if k < 0 then None
    else
      var result := CompleteURL(parse, documentURLs[k], url);
      if result.Some? && result.value != [] then result else None
  }

  /** An empty url, or one with "://" after its first character, is used as it is. */
  predicate UsedAsIs(url: string)
  {
    url == [] || IndexOf(url, "://") > 0
  }

  /**
   * `resourceURLForRelatedNode`, with the node and its ancestors given by their
   * document URLs ("" for none) and `scanned` standing for the URL the resource
   * scan settles on. An empty url, or one with "://" after its first character,
   * comes back as it is; a javascript: URL gets `None`; otherwise the nearest
   * document URL resolves it, or, failing that, the scan's answer is returned.
   */
  method ResourceURLForRelatedNode(parse: string -> Option<ParsedURL>, documentURLs: seq<string>, url: string, scanned: string)
    returns (r: Option<string>)
    ensures UsedAsIs(url) ==> r == Some(url)
    ensures !UsedAsIs(url) && StartsWith(Trim(url), "javascript:") ==> r.None?
    ensures !UsedAsIs(url) && !StartsWith(Trim(url), "javascript:") ==>
              r == if NearestResolution(parse, documentURLs, url).Some? then NearestResolution(parse, documentURLs, url)
                   else Some(scanned)
  {
    if url == [] || IndexOf(url, "://") > 0 {
      return Some(url);
    }
    if StartsWith(Trim(url), "javascript:") {
      return None;
    }
    var result := FrameOwnerURL(parse, documentURLs, url);
    if result.Some? {
      return result;
    }
    r := Some(scanned);
  }

  /** The walk up from the node: the first ancestor with a document URL decides, whatever its resolution gives. */
  method FrameOwnerURL(parse: string -> Option<ParsedURL>, documentURLs: seq<string>, url: string) returns (r: Option<string>)
    ensures r == NearestResolution(parse, documentURLs, url)
  {
    var candidate := 0;
    while candidate < |documentURLs|
      invariant 0 <= candidate <= |documentURLs|
      invariant forall j :: 0 <= j < candidate ==> documentURLs[j] == []
    {
      if documentURLs[candidate] != [] {
        var result := CompleteURL(parse, documentURLs[candidate], url);
        if result.Some? && result.value != [] {
          return result;
        }
        break;
      }
      candidate := candidate + 1;
    }
    r := None;
  }

  /**
   * `formatLinkText`: the display name, then ":" and the one-based line number
   * when a line number is given.
   */
  function FormatLinkText(displayName: string, lineNumber: Option<int>): (text: string)
    ensures lineNumber.None? ==> text == displayName
    ensures lineNumber.Some? ==> |text| > |displayName| + 1 && text[..|displayName|] == displayName && text[|displayName|] == ':'
  {
    if lineNumber.Some? then displayName + ":" + IntToString(lineNumber.value + 1) else displayName
  }

  /** The digits after the ':' read back as the one-based line number. */
  lemma FormatLinkTextLine(displayName: string, lineNumber: nat)
    ensures var text := FormatLinkText(displayName, Some(lineNumber));
            forall i :: |displayName| < i < |text| ==> IsDigitChar(text[i])
    ensures var text := FormatLinkText(displayName, Some(lineNumber));
            var digits := text[|displayName| + 1..];
            (forall i :: 0 <= i < |digits| ==> IsDigitChar(digits[i])) && DecimalValue(digits) == lineNumber + 1
  {
    var text := FormatLinkText(displayName, Some(lineNumber));
    assert text[|displayName| + 1..] == NatToString(lineNumber + 1);
    NatToStringRoundTrip(lineNumber + 1);
  }
}
