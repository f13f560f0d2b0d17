/**
 * The `file://directory/` resource: the listing of a directory, recursive when
 * the URI's query says `recursive=true`, sent as JSON.
 */
module DirectoryListingResource {
  import opened Lang
  import opened Strings
  import opened Disk
  import opened UriEscapes
  import opened McpSchema
  import opened FileSystemUtils

  const UriPrefix := "file://directory/"
  const ErrorPrefix := "Error handling directory listing request: "
  const ParamName := "recursive="

  // ------------------------------------------------------------------- query

  /** The URI up to, not including, its first '?'; the whole URI when it has none. */
  function UriWithoutParams(uri: string): (r: string)
    ensures r <= uri && '?' !in r
    ensures r == uri || uri[|r|] == '?'
  {
    if '?' in uri then uri[..IndexOf(uri, '?')] else uri
  }

  /**
   * Whether `[?&]recursive=(true|false)` matches at position `k` of `uri`, and
   * which word it captures there. Of the alternatives "true" is tried first;
   * they cannot both match.
   */
  function MatchAt(uri: string, k: nat): (r: Option<bool>)
    ensures r.Some? ==> k < |uri| && (uri[k] == '?' || uri[k] == '&')
  {
    if k < |uri| && (uri[k] == '?' || uri[k] == '&') && StartsWith(uri[k + 1..], ParamName) then
      var word := uri[k + 1 + |ParamName|..];
      if StartsWith(word, "true") then Some(true)
      else if StartsWith(word, "false") then Some(false)
      else None
    else None
  }

  /** `matcher.find()` from position `k`: the leftmost match at `k` or after. */
  function FindFrom(uri: string, k: nat): (r: Option<bool>)
    ensures r.Some? ==> k < |uri| && ('?' in uri[k..] || '&' in uri[k..])
    decreases |uri| - k
  {
    if k >= |uri| then None
    else if MatchAt(uri, k).Some? then
      assert uri[k..][0] == uri[k];
      MatchAt(uri, k)
    else
      var r := FindFrom(uri, k + 1);
      assert k + 1 < |uri| ==> uri[k + 1..] == uri[k..][1..];
      r
  }

  /** The `recursive` flag: the first match's word parsed as a boolean, false without a match. */
  function RecursiveFlag(uri: string): (r: bool)
    ensures r ==> '?' in uri || '&' in uri
  {
    assert uri[0..] == uri;
    FindFrom(uri, 0).GetOr(false)
  }

  /** What the search finds is the match at the leftmost matching position. */
  lemma {:induction false} FindFromSound(uri: string, k: nat)
    requires FindFrom(uri, k).Some?
    ensures exists m :: (k <= m < |uri| && MatchAt(uri, m) == FindFrom(uri, k)
      && forall j :: k <= j < m ==> MatchAt(uri, j).None?)
    decreases |uri| - k
  {
    var here := MatchAt(uri, k);
    assert k < |uri|;
    if here.None? {
      assert FindFrom(uri, k) == FindFrom(uri, k + 1);
      FindFromSound(uri, k + 1);
      var m :| k + 1 <= m < |uri| && MatchAt(uri, m) == FindFrom(uri, k + 1)
        && forall j :: k + 1 <= j < m ==> MatchAt(uri, j).None?;
      assert forall j :: k <= j < m ==> MatchAt(uri, j).None? by {
        forall j | k <= j < m
          ensures MatchAt(uri, j).None?
        {
          if j == k {
            assert MatchAt(uri, j) == here;
          }
        }
      }
      assert k <= m < |uri| && MatchAt(uri, m) == FindFrom(uri, k);
    } else {
      assert FindFrom(uri, k) == here;
    }
  }

  /** When position `m` matches and nothing in `k..m` does, the search from `k` finds `m`'s match. */
  lemma {:induction false} FindFromLeftmost(uri: string, k: nat, m: nat)
    requires k <= m && MatchAt(uri, m).Some?
    requires forall j :: k <= j < m ==> MatchAt(uri, j).None?
    ensures FindFrom(uri, k) == MatchAt(uri, m)
    decreases m - k
  {
    if k < m {
      FindFromLeftmost(uri, k + 1, m);
    }
  }

  /** `recursive` is true exactly when the leftmost match captures "true". */
  lemma RecursiveFlagIff(uri: string)
    ensures RecursiveFlag(uri) <==>
      exists m :: (0 <= m < |uri| && MatchAt(uri, m) == Some(true)
        && forall j :: 0 <= j < m ==> MatchAt(uri, j).None?)
  {
    if FindFrom(uri, 0).Some? {
      FindFromSound(uri, 0);
    }
    if exists m :: 0 <= m < |uri| && MatchAt(uri, m) == Some(true)
        && forall j :: 0 <= j < m ==> MatchAt(uri, j).None? {
      var m :| 0 <= m < |uri| && MatchAt(uri, m) == Some(true)
        && forall j :: 0 <= j < m ==> MatchAt(uri, j).None?;
      FindFromLeftmost(uri, 0, m);
    }
  }

  /** Without any match the flag is false. */
  lemma {:induction false} FindFromNothing(uri: string, k: nat)
    requires forall j :: k <= j < |uri| ==> MatchAt(uri, j).None?
    ensures FindFrom(uri, k).None?
    decreases |uri| - k
  {
    if k < |uri| {
      FindFromNothing(uri, k + 1);
    }
  }

  /** The literal word a flag value is written as. */
  function Word(v: bool): string {
    if v then "true" else "false"
  }

  /** The captured word, read from the text after "recursive=". */
  lemma WordMatches(v: bool, rest: string)
    ensures StartsWith(Word(v) + rest, "true") == v
    ensures !v ==> StartsWith(Word(v) + rest, "false")
  {
    var w := Word(v) + rest;
    assert w[..|Word(v)|] == Word(v);
    if !v {
      assert w[0] == 'f' && "true"[0] == 't';
    }
  }

  /**
   * A parameter written after text that holds no '?' and no '&' is the first
   * match, whatever follows it: `?recursive=true` and `&recursive=false` are
   * read as written, and a later parameter of the same name does not count.
   * When the text before it is a path with '&' and no '?', the match lies in
   * the path itself.
   */
  lemma FlagAfterPlainText(pre: string, sep: char, v: bool, rest: string)
    requires sep == '?' || sep == '&'
    requires '?' !in pre && '&' !in pre
    ensures RecursiveFlag(pre + [sep] + ParamName + Word(v) + rest) == v
  {
    var u := pre + [sep] + ParamName + Word(v) + rest;
    var m := |pre|;
    assert u[m] == sep;
    assert u[m + 1..] == ParamName + Word(v) + rest;
    assert u[m + 1 + |ParamName|..] == Word(v) + rest;
    assert (ParamName + Word(v) + rest)[..|ParamName|] == ParamName;
    WordMatches(v, rest);
    forall j | 0 <= j < m
      ensures MatchAt(u, j).None?
    {
      assert u[j] == pre[j];
    }
    FindFromLeftmost(u, 0, m);
  }

  /** A URI with no '?' and no '&' lists non-recursively. */
  lemma FlagAbsent(uri: string)
    requires '?' !in uri && '&' !in uri
    ensures !RecursiveFlag(uri)
  {
    forall j | 0 <= j < |uri|
      ensures MatchAt(uri, j).None?
    {
      assert uri[j] in uri;
    }
    FindFromNothing(uri, 0);
  }

  // ------------------------------------------------------------------ request

  /**
   * `handleRequest(request)` for a request whose URI is `uri` (None for null:
   * `uri.contains("?")` then throws a NullPointerException, which is not caught).
   * The path is decoded from the URI without its query; the flag is searched
   * for in the whole URI; only IOExceptions are wrapped.
   */
  function HandleRequest(fs: Tree, uri: Option<string>): (r: Outcome<ReadResourceResult>)
    ensures r.Threw? ==> r.exc.McpError? || r.exc.IllegalArgument? || r.exc.NullPointer?
  {
    if uri.None? then Threw(NullPointer)
    else
      match ExtractPathFromUri(Some(UriWithoutParams(uri.value)), UriPrefix)
      case Threw(e) => Threw(e)
      case Returned(directoryPath) =>
        var listed :=
          match Listing(fs, directoryPath, RecursiveFlag(uri.value))
          case Threw(e) => Threw(e)
          case Returned(ms) => Returned(SingleResource(uri.value, "application/json", ListingJson(ms)));
        WrapIOException(listed, ErrorPrefix)
  }

  /** A URI that does not start with the prefix is refused unwrapped, quoting the URI without its query. */
  lemma DirectoryInvalidUri(fs: Tree, uri: string)
    requires !StartsWith(uri, UriPrefix)
    ensures HandleRequest(fs, Some(uri)) == Threw(IllegalArgument("Invalid URI format: " + UriWithoutParams(uri)))
  {
  }

  /** The directory a well-formed URI names: the text between the prefix and the first '?', decoded. */
  function DirectoryPath(uri: string): string
    requires StartsWith(uri, UriPrefix)
  {
    ExtractPathFromUri(Some(UriWithoutParams(uri)), UriPrefix).value
  }

  /**
   * A well-formed URI is answered from `listFiles(path, recursive)`: its
   * IOExceptions are wrapped with the handler's prefix, a NullPointerException
   * passes through, and a listing becomes one JSON item carrying the full
   * request URI, query included.
   */
  lemma DirectoryListed(fs: Tree, uri: string)
    requires StartsWith(uri, UriPrefix)
    ensures var k := IndexOf(uri, '?');
      |UriPrefix| <= k && DirectoryPath(uri) == DecodeEscapes(uri[|UriPrefix|..k])
    ensures var l := Listing(fs, DirectoryPath(uri), RecursiveFlag(uri)); var r := HandleRequest(fs, Some(uri));
      && (l.Threw? && l.exc.IOException? ==> r == Threw(McpError(ErrorPrefix + l.exc.message)))
      && (l.Threw? && l.exc.NullPointer? ==> r == Threw(NullPointer))
      && (l.Returned? ==> r == Returned(SingleResource(uri, "application/json", ListingJson(l.value))))
  {
    var u := UriWithoutParams(uri);
    assert UriPrefix <= u by {
      assert '?' !in UriPrefix;
      assert forall i :: 0 <= i < |UriPrefix| ==> uri[i] != '?';
    }
    assert u == uri[..IndexOf(uri, '?')];
    assert u[|UriPrefix|..] == uri[|UriPrefix|..IndexOf(uri, '?')];
  }
}
