/** The delete form: a list of URL fields that the user grows, shrinks,
    edits and clears, and a submit that drops the blank fields, refuses the
    whole batch if any remaining entry is not a URL naming one of the two
    storage buckets, and otherwise sends `{urls}`. */
module DeleteFiles {
  import opened JsString
  import opened Requests

  const MEDIA_BUCKET := "g116-media-s3"
  const THUMBNAIL_BUCKET := "g116-thumbnails-s3"

  const NO_URLS := "Please enter at least one URL"
  const INVALID_URLS := "Please enter valid S3 URLs from your bird storage buckets"

  /** The key name `e.key` reports for the return key. */
  const ENTER := "Enter"

  /** The JSON body `{urls}` and its bearer header. */
  datatype DeleteRequest = DeleteRequest(authorization: string, urls: seq<string>)

  // -----------------------------------------------------------------------
  // The list of fields
  // -----------------------------------------------------------------------

  /** `s.filter((_, i) => i !== index)`: every position but `index`. */
  function WithoutIndex(s: seq<string>, index: int): (r: seq<string>)
    ensures 0 <= index < |s| ==> |r| == |s| - 1
    ensures 0 <= index < |s| ==> forall j :: 0 <= j < index ==> r[j] == s[j]
    ensures 0 <= index < |s| ==> forall j :: index <= j < |r| ==> r[j] == s[j + 1]
    ensures !(0 <= index < |s|) ==> r == s
    decreases |s|
  {
    if s == [] then []
    else (if index == 0 then [] else [s[0]]) + WithoutIndex(s[1..], index - 1)
  }

  // -----------------------------------------------------------------------
  // The pre-flight filter
  // -----------------------------------------------------------------------

  /** `url.trim().length > 0`. */
  predicate IsNonBlank(url: string) {
    Trim(url) != []
  }

  /** The entries submission considers, untrimmed and in order. */
  function NonBlankUrls(urls: seq<string>): seq<string> {
    Filter(urls, IsNonBlank)
  }

  /** An entry the URL test refuses: `new URL(url)` throws (`parses` stands
      for the WHATWG URL parser), or the text names neither bucket. */
  predicate IsRefused(parses: string -> bool, url: string) {
    !parses(url) || (!Includes(url, MEDIA_BUCKET) && !Includes(url, THUMBNAIL_BUCKET))
  }

  /** `validUrls.filter(url => ...)`: the entries the URL test refuses, in
      order. This is `JsString.Filter` with the predicate `u =>
      IsRefused(parses, u)` written out as its own recursion, because the
      predicate captures `parses`; RefusedUrlsMembers gives it the same
      membership property as FilterMembers. */
  function RefusedUrls(validUrls: seq<string>, parses: string -> bool): (r: seq<string>)
    ensures |r| <= |validUrls|
  {
    if validUrls == [] then []
    else (if IsRefused(parses, validUrls[0]) then [validUrls[0]] else []) + RefusedUrls(validUrls[1..], parses)
  }

  /** An entry is refused exactly when it is in the list and fails the URL test. */
  lemma {:induction false} RefusedUrlsMembers(validUrls: seq<string>, parses: string -> bool, url: string)
    ensures url in RefusedUrls(validUrls, parses) <==> url in validUrls && IsRefused(parses, url)
    decreases |validUrls|
  {
    if validUrls != [] {
      RefusedUrlsMembers(validUrls[1..], parses, url);
      assert validUrls == [validUrls[0]] + validUrls[1..];
    }
  }

  /** What the delete handler decides before it calls the server. */
  function PreFlight(urls: seq<string>, parses: string -> bool, token: Option<string>): Outcome<DeleteRequest> {
    var validUrls := NonBlankUrls(urls);
    if |validUrls| == 0 then Rejected(NO_URLS)
    else if |RefusedUrls(validUrls, parses)| > 0 then Rejected(INVALID_URLS)
    else Accepted(DeleteRequest(Bearer(token), validUrls))
  }

  /** The three outcomes of PreFlight, in terms of its two filters. */
  lemma PreFlightCases(urls: seq<string>, parses: string -> bool, token: Option<string>)
    ensures NonBlankUrls(urls) == [] ==> PreFlight(urls, parses, token) == Rejected(NO_URLS)
    ensures NonBlankUrls(urls) != [] && RefusedUrls(NonBlankUrls(urls), parses) != [] ==>
              PreFlight(urls, parses, token) == Rejected(INVALID_URLS)
    ensures NonBlankUrls(urls) != [] && RefusedUrls(NonBlankUrls(urls), parses) == [] ==>
              PreFlight(urls, parses, token) == Accepted(DeleteRequest(Bearer(token), NonBlankUrls(urls)))
  {
  }

  /** The kept entries are the non-blank ones, unchanged and in their
      order: the entries of two lists are those of the first followed by
      those of the second, and one entry is kept exactly when it is not
      blank. */
  lemma NonBlankUrlsInOrder(a: seq<string>, b: seq<string>, url: string)
    ensures NonBlankUrls(a + b) == NonBlankUrls(a) + NonBlankUrls(b)
    ensures NonBlankUrls([url]) == if IsNonBlank(url) then [url] else []
  {
    FilterAppend(a, b, IsNonBlank);
    assert [url][1..] == [];
  }

  /** Nothing but blank fields: refused, and no request. */
  lemma AllBlankRejected(urls: seq<string>, parses: string -> bool, token: Option<string>)
    requires forall i :: 0 <= i < |urls| ==> !IsNonBlank(urls[i])
    ensures PreFlight(urls, parses, token) == Rejected(NO_URLS)
  {
    FilterEmptyIff(urls, IsNonBlank);
  }

  /** One refused entry among the non-blank ones refuses the whole batch. */
  lemma RefusedEntryRejectsBatch(urls: seq<string>, parses: string -> bool, token: Option<string>, i: nat)
    requires i < |urls| && IsNonBlank(urls[i]) && IsRefused(parses, urls[i])
    ensures PreFlight(urls, parses, token) == Rejected(INVALID_URLS)
  {
    FilterMembers(urls, IsNonBlank, urls[i]);
    RefusedUrlsMembers(NonBlankUrls(urls), parses, urls[i]);
  }

  /** Some field has text other than whitespace. */
  predicate SomeNonBlank(urls: seq<string>) {
    exists i :: 0 <= i < |urls| && IsNonBlank(urls[i])
  }

  /** Every field with text parses as a URL and names a bucket. */
  predicate AllNonBlankPass(urls: seq<string>, parses: string -> bool) {
    forall i :: 0 <= i < |urls| && IsNonBlank(urls[i]) ==> !IsRefused(parses, urls[i])
  }

  /** Some field is kept exactly when some field is non-blank. */
  lemma SomeNonBlankIff(urls: seq<string>)
    ensures NonBlankUrls(urls) != [] <==> SomeNonBlank(urls)
  {
    FilterEmptyIff(urls, IsNonBlank);
  }

  /** No kept field is refused exactly when every non-blank field passes. */
  lemma NoneRefusedIff(urls: seq<string>, parses: string -> bool)
    ensures RefusedUrls(NonBlankUrls(urls), parses) == [] <==> AllNonBlankPass(urls, parses)
  {
    var valid := NonBlankUrls(urls);
    if RefusedUrls(valid, parses) == [] {
      forall i | 0 <= i < |urls| && IsNonBlank(urls[i])
        ensures !IsRefused(parses, urls[i])
      {
        FilterMembers(urls, IsNonBlank, urls[i]);
        RefusedUrlsMembers(valid, parses, urls[i]);
      }
    } else {
      var url := RefusedUrls(valid, parses)[0];
      RefusedUrlsMembers(valid, parses, url);
      FilterMembers(urls, IsNonBlank, url);
      var i :| 0 <= i < |urls| && urls[i] == url;
      assert IsNonBlank(urls[i]) && IsRefused(parses, urls[i]);
    }
  }

  /** The request goes out exactly when some field is non-blank and every
      non-blank field parses and names a bucket; it then carries exactly
      the non-blank fields, untrimmed and in order. */
  lemma AcceptedIff(urls: seq<string>, parses: string -> bool, token: Option<string>)
    ensures PreFlight(urls, parses, token).Accepted? <==> SomeNonBlank(urls) && AllNonBlankPass(urls, parses)
    ensures PreFlight(urls, parses, token).Accepted? ==>
              PreFlight(urls, parses, token).request == DeleteRequest(Bearer(token), NonBlankUrls(urls))
  {
    SomeNonBlankIff(urls);
    NoneRefusedIff(urls, parses);
  }

  /** The form's state: the URL fields, the last server reply, the status
      line and the busy flag. */
  class DeleteForm {
    var urls: seq<string>
    /** The body of the last reply (`null` before any), not interpreted here. */
    var results: Option<string>
    var status: string
    var loading: bool

    /** There is always at least one field. */
    ghost predicate Valid()
      reads this
    {
      |urls| >= 1
    }

    constructor ()
      ensures Valid()
      ensures urls == [""] && results == None && status == "" && !loading
    {
      urls, results, status, loading := [""], None, "", false;
    }

    /** The `+` button: one more, empty, field at the end. */
    method AddUrlField()
      requires Valid()
      modifies this`urls
      ensures Valid()
      ensures urls == old(urls) + [""]
    {
      urls := urls + [""];
    }

    /** The `×` button of field `index`: the field goes, unless it is the
      only one. */
    method RemoveUrlField(index: int)
      requires Valid()
      modifies this`urls
      ensures Valid()
      ensures |old(urls)| > 1 ==> urls == WithoutIndex(old(urls), index)
      ensures |old(urls)| == 1 ==> urls == old(urls)
    {
      if |urls| > 1 {
        urls := WithoutIndex(urls, index);
      }
    }

    /** Typing into field `index`: that field takes the new text, the rest
      stay as they were. */
    method UpdateUrl(index: nat, value: string)
      requires Valid() && index < |urls|
      modifies this`urls
      ensures Valid()
      ensures |urls| == |old(urls)| && urls[index] == value
      ensures forall j :: 0 <= j < |urls| && j != index ==> urls[j] == old(urls)[j]
    {
      urls := urls[index := value];
    }

    /** "Clear All": one empty field, no results, no status. */
    method ClearAll()
      modifies this`urls, this`results, this`status
      ensures Valid()
      ensures urls == [""] && results == None && status == ""
    {
      urls, results, status := [""], None, "";
    }

    /** "Delete Files" up to the request: a refusal sets the status only; an
      accepted batch clears the status and the results, sets the busy flag,
      and gives the request. */
    method HandleDelete(parses: string -> bool, token: Option<string>) returns (request: Option<DeleteRequest>)
      requires Valid()
      modifies this`status, this`loading, this`results
      ensures Valid()
      ensures request == RequestOf(PreFlight(urls, parses, token))
      ensures PreFlight(urls, parses, token).Rejected? ==>
                status == PreFlight(urls, parses, token).message
                && loading == old(loading) && results == old(results)
      ensures PreFlight(urls, parses, token).Accepted? ==> status == "" && loading && results == None
    {
      PreFlightCases(urls, parses, token);
      var validUrls := NonBlankUrls(urls);
      if |validUrls| == 0 {
        status := NO_URLS;
        return None;
      }
      var invalidUrls := RefusedUrls(validUrls, parses);
      if |invalidUrls| > 0 {
        status := INVALID_URLS;
        return None;
      }
      status, loading, results := "", true, None;
      request := Some(DeleteRequest(Bearer(token), validUrls));
    }

    /** A key press in field `index`: Enter in the last field submits, any
      other key or field does nothing. */
    method HandleKeyPress(key: string, index: int, parses: string -> bool, token: Option<string>)
      returns (request: Option<DeleteRequest>)
      requires Valid()
      modifies this`status, this`loading, this`results
      ensures Valid()
      ensures !(key == ENTER && index == |urls| - 1) ==>
                request == None && status == old(status) && loading == old(loading) && results == old(results)
      ensures key == ENTER && index == |urls| - 1 ==> request == RequestOf(PreFlight(urls, parses, token))
      ensures key == ENTER && index == |urls| - 1 && PreFlight(urls, parses, token).Rejected? ==>
                status == PreFlight(urls, parses, token).message
                && loading == old(loading) && results == old(results)
      ensures key == ENTER && index == |urls| - 1 && PreFlight(urls, parses, token).Accepted? ==>
                status == "" && loading && results == None
    {
      request := None;
      if key == ENTER && index == |urls| - 1 {
        request := HandleDelete(parses, token);
      }
    }
  }
}
