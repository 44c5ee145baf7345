/**
  The pull-request export: the walk over the pages of the repository host's pull-request
  listing, following the `next` relation of each page's `Link` header, and the flattening
  of every raw record into a six-column row.
 */
module GitHub {
  import opened Wrappers
  import opened Strings

  // ---------------------------------------------------------------------------
  // extract_pr_data
  // ---------------------------------------------------------------------------

  /** A field value of a decoded JSON record. */
  datatype Value = Null | Str(s: string) | Int(i: int) | Bool(b: bool)

  /** Python truthiness of a value: None, "", 0 and False are false. */
  predicate Truthy(v: Value)
  {
    match v
    case Null => false
    case Str(s) => s != ""
    case Int(i) => i != 0
    case Bool(b) => b
  }

  /** The fields of one pull-request record that the export reads: `id`, `user.login`,
      `base.ref`, `created_at`, `merged_at`, `state` and `closed_at`. */
  datatype RawPr = RawPr(
    id: Value, login: Value, baseRef: Value, createdAt: Value,
    mergedAt: Value, state: Value, closedAt: Value)

  /** The status column: "merged" when `merged_at` is truthy, else "declined" when the state is
      "closed", else the state as it is. So a row reads "merged" exactly when the record has a
      merge time or its raw state already is "merged", reads "declined" exactly when it has no
      merge time and is closed or already "declined", never reads "closed", and otherwise
      carries the raw state of an unmerged record. */
  function Status(pr: RawPr): (r: Value)
    ensures r == Str("merged") <==> Truthy(pr.mergedAt) || pr.state == Str("merged")
    ensures r == Str("declined") <==>
      !Truthy(pr.mergedAt) && (pr.state == Str("closed") || pr.state == Str("declined"))
    ensures r != Str("closed")
    ensures r != Str("merged") && r != Str("declined") ==> !Truthy(pr.mergedAt) && r == pr.state
  {
    if Truthy(pr.mergedAt) then Str("merged")
    else if pr.state == Str("closed") then Str("declined")
    else pr.state
  }

  /** The row of one record: id, creator login, target branch, creation time, status, and the
      merge time when there is one, else the close time. The last column holds a time exactly
      when the record has a merge or a close time, and a row not reading "merged" carries the
      close time. */
  function Normalize(pr: RawPr): (row: seq<Value>)
    ensures |row| == 6
    ensures row[..4] == [pr.id, pr.login, pr.baseRef, pr.createdAt] && row[4] == Status(pr)
    ensures Truthy(row[5]) <==> Truthy(pr.mergedAt) || Truthy(pr.closedAt)
    ensures row[4] != Str("merged") ==> row[5] == pr.closedAt
    ensures Truthy(pr.mergedAt) ==> row[5] == pr.mergedAt
    ensures !Truthy(pr.mergedAt) ==> row[5] == pr.closedAt
  {
    [pr.id, pr.login, pr.baseRef, pr.createdAt, Status(pr),
     if Truthy(pr.mergedAt) then pr.mergedAt else pr.closedAt]
  }

  /** extract_pr_data: one row per record, in the order of the records. */
  method ExtractPrData(prs: seq<RawPr>) returns (data: seq<seq<Value>>)
    ensures |data| == |prs|
    ensures forall k :: 0 <= k < |prs| ==> data[k] == Normalize(prs[k])
  {
    data := [];
    var i := 0;
    while i < |prs|
      invariant 0 <= i <= |prs|
      invariant |data| == i
      invariant forall k :: 0 <= k < i ==> data[k] == Normalize(prs[k])
    {
      var pr := prs[i];
      var status := if Truthy(pr.mergedAt) then Str("merged")
        else if pr.state == Str("closed") then Str("declined")
        else pr.state;
      var mergedOrDeclinedAt := if Truthy(pr.mergedAt) then pr.mergedAt else pr.closedAt;
      data := data + [[pr.id, pr.login, pr.baseRef, pr.createdAt, status, mergedOrDeclinedAt]];
      i := i + 1;
    }
  }

  // ---------------------------------------------------------------------------
  // The Link header
  // ---------------------------------------------------------------------------

  /** One entry `<url>; rel="name"` of a Link header: the relation name, `[5:-1]` of the piece
      after the first "; ", and the URL, `[1:-1]` of the piece before it. None where the entry
      has no "; " and indexing the second piece raises IndexError. */
  function LinkEntry(entry: string): Option<(string, string)>
  {
    var parts := Split(entry, "; ");
    if |parts| < 2 then None
    else Some((PySlice(parts[1], 5, -1), PySlice(parts[0], 1, -1)))
  }

  /** An entry fails to parse exactly when it holds no "; ". */
  lemma LinkEntryFails(entry: string)
    ensures LinkEntry(entry).None? <==> Free(entry, "; ")
  {
  }

  /** The dictionary comprehension over the entries, left to right, from `acc`: each entry maps
      its relation name to its URL, over whatever an earlier entry put there. */
  function LinksFrom(entries: seq<string>, acc: map<string, string>): Option<map<string, string>>
  {
    if entries == [] then Some(acc)
    else
      match LinkEntry(entries[0])
      case None => None
      case Some(link) => LinksFrom(entries[1..], acc[link.0 := link.1])
  }

  /** The links of a Link header, its entries separated by ", ". */
  function ParseLinks(header: string): Option<map<string, string>>
  {
    LinksFrom(Split(header, ", "), map[])
  }

  /** The parse fails exactly when some entry has no "; ". */
  lemma {:induction false} LinksFromFails(entries: seq<string>, acc: map<string, string>)
    ensures LinksFrom(entries, acc).None? <==> exists k :: 0 <= k < |entries| && LinkEntry(entries[k]).None?
  {
    if entries != [] {
      match LinkEntry(entries[0])
      case None =>
      case Some(link) =>
        LinksFromFails(entries[1..], acc[link.0 := link.1]);
        if exists k :: 0 <= k < |entries| && LinkEntry(entries[k]).None? {
          var k :| 0 <= k < |entries| && LinkEntry(entries[k]).None?;
          assert entries[1..][k - 1] == entries[k];
        }
        if exists k :: 0 <= k < |entries[1..]| && LinkEntry(entries[1..][k]).None? {
          var k :| 0 <= k < |entries[1..]| && LinkEntry(entries[1..][k]).None?;
          assert entries[k + 1] == entries[1..][k];
        }
    }
  }

  /** A whole header fails to parse exactly when one of its ", "-separated entries holds no "; ". */
  lemma ParseLinksFails(header: string)
    ensures ParseLinks(header).None? <==>
      exists k :: 0 <= k < |Split(header, ", ")| && Free(Split(header, ", ")[k], "; ")
  {
    var entries := Split(header, ", ");
    var none: map<string, string> := map[];
    assert ParseLinks(header) == LinksFrom(entries, none);
    LinksFromFails(entries, none);
    forall k | 0 <= k < |entries|
      ensures LinkEntry(entries[k]).None? <==> Free(entries[k], "; ")
    {
      LinkEntryFails(entries[k]);
    }
    assert ParseLinks(header).None? <==> exists j :: 0 <= j < |entries| && Free(entries[j], "; ");
    assert ParseLinks(header).None? ==>
      exists j :: 0 <= j < |Split(header, ", ")| && Free(Split(header, ", ")[j], "; ");
  }

  /** A Link header entry as the host writes it. */
  function FormatEntry(url: string, rel: string): string
  {
    "<" + url + ">" + "; " + "rel=\"" + rel + "\""
  }

  /** A Link header for the links `(url, rel)`, in order. */
  function FormatLinks(links: seq<(string, string)>): string
  {
    Join(seq(|links|, k requires 0 <= k < |links| => FormatEntry(links[k].0, links[k].1)), ", ")
  }

  /** URLs and relation names as the host writes them: never holding either separator. */
  predicate Plain(s: string)
  {
    Free(s, "; ") && Free(s, ", ")
  }

  /** The dictionary the comprehension builds for the links `(url, rel)`: later entries
      overwrite earlier ones with the same name. */
  function LinkMap(links: seq<(string, string)>): map<string, string>
  {
    if links == [] then map[]
    else LinkMap(links[..|links| - 1])[links[|links| - 1].1 := links[|links| - 1].0]
  }

  /** A name is in the dictionary exactly when some link carries it. */
  lemma {:induction false} LinkMapHas(links: seq<(string, string)>, rel: string)
    ensures rel in LinkMap(links) <==> exists k :: 0 <= k < |links| && links[k].1 == rel
  {
    if links != [] {
      var n := |links| - 1;
      LinkMapHas(links[..n], rel);
      if rel != links[n].1 && exists k :: 0 <= k < |links| && links[k].1 == rel {
        var k :| 0 <= k < |links| && links[k].1 == rel;
        assert links[..n][k] == links[k];
      }
    }
  }

  /** A name maps to the URL of the last link that carries it. */
  lemma {:induction false} LinkMapLast(links: seq<(string, string)>, rel: string, k: nat)
    requires k < |links| && links[k].1 == rel
    requires forall j :: k < j < |links| ==> links[j].1 != rel
    ensures rel in LinkMap(links) && LinkMap(links)[rel] == links[k].0
  {
    var n := |links| - 1;
    if k < n {
      var front := links[..n];
      assert links[n].1 != rel;
      assert forall j :: k < j < |front| ==> front[j] == links[j];
      LinkMapLast(front, rel, k);
    }
  }

  /** No character of `s` begins `sep`, so `sep` does not occur in it. */
  lemma FreeOfFirst(s: string, sep: string)
    requires sep != [] && forall k :: 0 <= k < |s| ==> s[k] != sep[0]
    ensures Free(s, sep)
  {
    forall k | 0 <= k < |s| ensures !OccursAt(s, k, sep) {
      NotOccursAt(s, k, sep);
    }
  }

  /** `<url>` and `rel="name"` stay free of a separator the URL and name are free of. */
  lemma {:induction false} FramedFree(url: string, rel: string, sep: string)
    requires sep == "; " || sep == ", "
    requires Free(url, sep) && Free(rel, sep)
    ensures Free("<" + url + ">", sep)
    ensures Free("rel=\"" + rel + "\"", sep)
  {
    FreeOfFirst("<", sep);
    FreeOfFirst(">", sep);
    FreeOfFirst("\"", sep);
    var key := "rel=\"";
    assert key[0] == 'r' && key[1] == 'e' && key[2] == 'l' && key[3] == '=' && key[4] == '"';
    FreeOfFirst(key, sep);
    FreeConcat("<", url, sep);
    FreeConcat("<" + url, ">", sep);
    FreeConcat(key, rel, sep);
    FreeConcat(key + rel, "\"", sep);
  }

  /** The entry for a plain URL and name parses back to that name and URL. */
  lemma EntryRoundTrip(url: string, rel: string)
    requires Plain(url) && Plain(rel)
    ensures LinkEntry(FormatEntry(url, rel)) == Some((rel, url))
  {
    var a := "<" + url + ">";
    var b := "rel=\"" + rel + "\"";
    FramedFree(url, rel, "; ");
    assert FormatEntry(url, rel) == a + "; " + b;
    SplitJoin([a, b], "; ");
    assert Join([a, b], "; ") == a + "; " + Join([b], "; ");
    SliceDropLast(a, 1);
    assert a[1..|a| - 1] == url;
    SliceDropLast(b, 5);
    assert b[5..|b| - 1] == rel;
  }

  /** An entry holds ", " nowhere when its URL and name do not. */
  lemma EntryFreeOfComma(url: string, rel: string)
    requires Plain(url) && Plain(rel)
    ensures Free(FormatEntry(url, rel), ", ")
  {
    FramedFree(url, rel, ", ");
    var a := "<" + url + ">";
    var b := "rel=\"" + rel + "\"";
    FreeOfFirst("; ", ", ");
    FreeConcat(a, "; ", ", ");
    FreeConcat(a + "; ", b, ", ");
    assert FormatEntry(url, rel) == a + "; " + b;
  }

  /** A comprehension over the entries of a list of links builds LinkMap's dictionary. */
  lemma {:induction false} LinksFromEntries(links: seq<(string, string)>, acc: map<string, string>)
    requires forall k :: 0 <= k < |links| ==> Plain(links[k].0) && Plain(links[k].1)
    ensures LinksFrom(seq(|links|, k requires 0 <= k < |links| => FormatEntry(links[k].0, links[k].1)), acc)
         == Some(Override(acc, links))
  {
    var entries := seq(|links|, k requires 0 <= k < |links| => FormatEntry(links[k].0, links[k].1));
    if links != [] {
      EntryRoundTrip(links[0].0, links[0].1);
      var rest := links[1..];
      assert entries[1..] == seq(|rest|, k requires 0 <= k < |rest| => FormatEntry(rest[k].0, rest[k].1));
      LinksFromEntries(rest, acc[links[0].1 := links[0].0]);
    }
  }

  /** `acc` updated by the links, left to right. */
  function Override(acc: map<string, string>, links: seq<(string, string)>): map<string, string>
    decreases links
  {
    if links == [] then acc else Override(acc[links[0].1 := links[0].0], links[1..])
  }

  lemma {:induction false} OverrideSnoc(acc: map<string, string>, links: seq<(string, string)>, x: (string, string))
    ensures Override(acc, links + [x]) == Override(acc, links)[x.1 := x.0]
    decreases links
  {
    if links != [] {
      assert (links + [x])[1..] == links[1..] + [x];
      OverrideSnoc(acc[links[0].1 := links[0].0], links[1..], x);
    }
  }

  /** Updating left to right from the empty dictionary is LinkMap. */
  lemma {:induction false} OverrideIsLinkMap(links: seq<(string, string)>)
    ensures Override(map[], links) == LinkMap(links)
  {
    if links != [] {
      var n := |links| - 1;
      OverrideIsLinkMap(links[..n]);
      assert links == links[..n] + [links[n]];
      OverrideSnoc(map[], links[..n], links[n]);
    }
  }

  /** A header the host writes for plain links parses back to LinkMap's dictionary: every name
      maps to the URL of its last entry. */
  lemma HeaderRoundTrip(links: seq<(string, string)>)
    requires links != []
    requires forall k :: 0 <= k < |links| ==> Plain(links[k].0) && Plain(links[k].1)
    ensures ParseLinks(FormatLinks(links)) == Some(LinkMap(links))
  {
    var entries := seq(|links|, k requires 0 <= k < |links| => FormatEntry(links[k].0, links[k].1));
    forall k | 0 <= k < |entries| ensures Free(entries[k], ", ") {
      EntryFreeOfComma(links[k].0, links[k].1);
    }
    SplitJoin(entries, ", ");
    LinksFromEntries(links, map[]);
    OverrideIsLinkMap(links);
  }

  // ---------------------------------------------------------------------------
  // fetch_pull_requests
  // ---------------------------------------------------------------------------

  /** A response of the listing endpoint: its status code, the records of the page, and its
      Link header, if any. */
  datatype Response = Response(status: int, records: seq<RawPr>, link: Option<string>)

  /** Why the walk over the pages ends without all the records: raise_for_status raised, the
      Link header could not be parsed, or the bound on the number of pages ran out. */
  datatype FetchError = HttpError(status: int) | MalformedLink | OutOfFuel

  /** raise_for_status raises for client errors (4xx) and server errors (5xx). */
  predicate IsHttpError(status: int)
  {
    400 <= status < 600
  }

  /** The first page of the listing of the repository `repo`. */
  function ListingUrl(repo: string): string
  {
    "https://api.github.com/repos/" + repo + "/pulls"
  }

  /** The page after one with Link header `link`: none when there is no header (or it is
      empty), none when the header has no `next` link, otherwise its URL; MalformedLink when
      the header cannot be parsed. */
  function NextUrl(link: Option<string>): Result<Option<string>, FetchError>
  {
    if link.None? || link.value == "" then Success(None)
    else
      match ParseLinks(link.value)
      case None => Failure(MalformedLink)
      case Some(links) => Success(if "next" in links then Some(links["next"]) else None)
  }

  /** The walk fails on a header exactly when the header is present, non-empty and does not
      parse; it goes on exactly when the parsed header has a `next` link, and then to that
      link's URL. */
  lemma NextUrlCases(link: Option<string>)
    ensures NextUrl(link).Failure? <==> link.Some? && link.value != "" && ParseLinks(link.value).None?
    ensures NextUrl(link).Success? && NextUrl(link).value.Some? <==>
      link.Some? && link.value != "" && ParseLinks(link.value).Some? && "next" in ParseLinks(link.value).value
    ensures NextUrl(link).Success? && NextUrl(link).value.Some? ==>
      NextUrl(link).value.value == ParseLinks(link.value).value["next"]
  {
  }

  /** The records of the pages from `url` on, for a host answering `server`, following at most
      `fuel` pages: a page that answers with an error ends the walk with that error, and an
      empty URL ends it with nothing more. */
  function Walk(url: string, server: string -> Response, fuel: nat): Result<seq<RawPr>, FetchError>
    decreases fuel
  {
    if url == "" then Success([])
    else if fuel == 0 then Failure(OutOfFuel)
    else
      var response := server(url);
      if IsHttpError(response.status) then Failure(HttpError(response.status))
      else
        match NextUrl(response.link)
        case Failure(e) => Failure(e)
        case Success(next) =>
          match (if next.None? then Success([]) else Walk(next.value, server, fuel - 1))
          case Failure(e) => Failure(e)
          case Success(more) => Success(response.records + more)
  }

  /** `acc` in front of the records of a walk that succeeds. */
  function After(acc: seq<RawPr>, r: Result<seq<RawPr>, FetchError>): Result<seq<RawPr>, FetchError>
  {
    match r
    case Success(more) => Success(acc + more)
    case Failure(e) => Failure(e)
  }

  /** What one pass of the `while url` loop leads to: the walk is over with `result`, or it goes
      on to `next` with the page's records. */
  datatype Step = Done(result: Result<seq<RawPr>, FetchError>) | Continue(records: seq<RawPr>, next: string)

  /** One pass of the loop at `url` with `fuel` pages left: fetch the page, fail on an error
      status, then stop or go on according to its Link header. With `acc` the records gathered
      before this page and `whole` the records of the entire walk, the walk is over with
      `whole` or goes on to a page whose walk completes `acc` and this page's records to
      `whole`. */
  method FetchPage(url: string, server: string -> Response, fuel: nat,
                   ghost acc: seq<RawPr>, ghost whole: Result<seq<RawPr>, FetchError>)
    returns (step: Step)
    requires url != ""
    requires After(acc, Walk(url, server, fuel)) == whole
    ensures step.Done? ==> step.result == Walk(url, server, fuel) && After(acc, step.result) == whole
    ensures step.Continue? ==>
      && fuel > 0 && step.next != ""
      && Walk(url, server, fuel) == After(step.records, Walk(step.next, server, fuel - 1))
      && After(acc + step.records, Walk(step.next, server, fuel - 1)) == whole
  {
    if fuel == 0 {
      return Done(Failure(OutOfFuel));
    }
    var response := server(url);
    if IsHttpError(response.status) {
      return Done(Failure(HttpError(response.status)));
    }
    var next := NextUrl(response.link);
    if next.Failure? {
      return Done(Failure(next.error));
    }
    WalkStep(url, server, fuel, next.value);
    if next.value.None? || next.value.value == "" {
      assert response.records + [] == response.records;
      return Done(Success(response.records));
    }
    step := Continue(response.records, next.value.value);
    AfterStep(acc, step.records, Walk(url, server, fuel), Walk(step.next, server, fuel - 1));
  }

  /** The `while url` loop from `url` with at most `fuel` pages: the records of every page,
      in order. */
  method FetchFrom(url: string, server: string -> Response, fuel: nat)
    returns (r: Result<seq<RawPr>, FetchError>)
    ensures r == Walk(url, server, fuel)
  {
    var records := [];
    var at := url;
    var left := fuel;
    ghost var whole := Walk(url, server, fuel);
    AfterNothing(whole);
    while at != ""
      invariant After(records, Walk(at, server, left)) == whole
      decreases left
    {
      var step := FetchPage(at, server, left, records, whole);
      if step.Done? {
        return After(records, step.result);
      }
      records := records + step.records;
      at := step.next;
      left := left - 1;
    }
    AfterEnd(records, server, left);
    return Success(records);
  }

  lemma AfterNothing(r: Result<seq<RawPr>, FetchError>)
    ensures After([], r) == r
  {
    if r.Success? {
      assert [] + r.value == r.value;
    }
  }

  lemma AfterEnd(acc: seq<RawPr>, server: string -> Response, fuel: nat)
    ensures After(acc, Walk("", server, fuel)) == Success(acc)
  {
    assert acc + [] == acc;
  }

  /** One page of the walk: its records, then those of the pages after it. */
  lemma WalkStep(url: string, server: string -> Response, fuel: nat, next: Option<string>)
    requires url != "" && fuel > 0 && !IsHttpError(server(url).status)
    requires NextUrl(server(url).link) == Success(next)
    ensures Walk(url, server, fuel)
         == After(server(url).records, if next.None? then Success([]) else Walk(next.value, server, fuel - 1))
  {
    if next.None? {
      assert server(url).records + [] == server(url).records;
    }
  }

  /** fetch_pull_requests(repo) with read_github_pr_data consuming it: the records of every
      page of the repository's listing, in order, following the `next` links for at most
      `fuel` pages. */
  method FetchPullRequests(repo: string, server: string -> Response, fuel: nat)
    returns (r: Result<seq<RawPr>, FetchError>)
    ensures r == Walk(ListingUrl(repo), server, fuel)
  {
    r := FetchFrom(ListingUrl(repo), server, fuel);
  }

  /** Records gathered so far, then a page's records, then the walk after that page. */
  lemma AfterStep(a: seq<RawPr>, b: seq<RawPr>, here: Result<seq<RawPr>, FetchError>, rest: Result<seq<RawPr>, FetchError>)
    requires here == After(b, rest)
    ensures After(a, here) == After(a + b, rest)
  {
    if rest.Success? {
      assert a + (b + rest.value) == a + b + rest.value;
    }
  }

  /** Fuel only bounds the walk: one that finishes gives the same records with more fuel. */
  lemma {:induction false} WalkMoreFuel(url: string, server: string -> Response, fuel: nat)
    requires Walk(url, server, fuel) != Failure(OutOfFuel)
    ensures Walk(url, server, fuel + 1) == Walk(url, server, fuel)
    decreases fuel
  {
    if url != "" && fuel > 0 {
      var response := server(url);
      if !IsHttpError(response.status) {
        var next := NextUrl(response.link);
        if next.Success? && next.value.Some? {
          WalkMoreFuel(next.value.value, server, fuel - 1);
        }
      }
    }
  }

  /** "next" holds neither separator. */
  lemma NextIsPlain()
    ensures Plain("next")
  {
    var s := "next";
    assert s[0] == 'n' && s[1] == 'e' && s[2] == 'x' && s[3] == 't';
    FreeOfFirst(s, "; ");
    FreeOfFirst(s, ", ");
  }

  /** A header whose only link is `next` leads to its URL. */
  lemma NextOfHeader(u: string)
    requires Plain(u)
    ensures NextUrl(Some(FormatLinks([(u, "next")]))) == Success(Some(u))
  {
    NextIsPlain();
    HeaderRoundTrip([(u, "next")]);
    assert LinkMap([(u, "next")]) == map["next" := u];
    assert FormatLinks([(u, "next")]) != "" by {
      assert |FormatEntry(u, "next")| > 0;
    }
  }

  /** Two pages, the first linking to the second: the walk gives the records of both, in order. */
  lemma TwoPages(server: string -> Response, u1: string, u2: string, a: seq<RawPr>, b: seq<RawPr>)
    requires u1 != "" && u2 != "" && Plain(u2)
    requires server(u1) == Response(200, a, Some(FormatLinks([(u2, "next")])))
    requires server(u2) == Response(200, b, None)
    ensures Walk(u1, server, 2) == Success(a + b)
  {
    NextOfHeader(u2);
    assert b + [] == b;
  }

  /** A host whose page names itself as the next page is never done: the walk uses up any
      amount of fuel. */
  lemma {:induction false} SelfLinkNeverEnds(server: string -> Response, u: string, fuel: nat)
    requires u != "" && Plain(u)
    requires server(u).link == Some(FormatLinks([(u, "next")])) && !IsHttpError(server(u).status)
    ensures Walk(u, server, fuel) == Failure(OutOfFuel)
    decreases fuel
  {
    if fuel > 0 {
      NextOfHeader(u);
      SelfLinkNeverEnds(server, u, fuel - 1);
    }
  }
}
