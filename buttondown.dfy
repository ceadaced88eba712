/** The Buttondown newsletter client: the index of draft emails by the
    first `YYYY-MM-DD` date in their subject, and the choice `publish`
    makes between updating an existing draft and creating a new one. */
module Buttondown {
  import opened Base
  import opened IsoDate

  /** The fields of an email object the client reads. */
  datatype Email = Email(id: string, subject: string, status: string)

  /** The JSON body of a create or an update. */
  datatype Payload = Payload(subject: string, body: string, status: string)

  /** A request made through the session. */
  datatype HttpCall =
    | Get(url: string)
    | Post(url: string, json: Payload)
    | Patch(url: string, json: Payload)

  const BaseUrl := "https://api.buttondown.email/v1"

  /** The date an email is indexed under, when it is indexed at all: only
      drafts whose subject holds a date are. */
  function DraftKey(e: Email): (r: Option<string>)
    ensures r.Some? <==> e.status == "draft" && FindDate(e.subject).Some?
    ensures r.Some? ==> r == FirstDateText(e.subject)
  {
    if e.status == "draft" then FirstDateText(e.subject) else None
  }

  /** `list_drafts` on the listed `results`: each indexed email under its
      date, a later one replacing an earlier one under the same date. */
  function DraftIndex(results: seq<Email>): map<string, Email> {
    IndexBy(results, DraftKey)
  }

  /** The dictionary a loop builds by storing each item of `xs` that has a
      key under that key. */
  function IndexBy<T>(xs: seq<T>, key: T -> Option<string>): map<string, T>
    decreases |xs|
  {
    if |xs| == 0 then map[]
    else
      var rest := IndexBy(xs[..|xs| - 1], key);
      var x := xs[|xs| - 1];
      match key(x)
      case Some(k) => rest[k := x]
      case None => rest
  }

  /** The index holds a key exactly when some item has it. */
  lemma {:induction false} IndexKeys<T>(xs: seq<T>, key: T -> Option<string>, k: string)
    ensures k in IndexBy(xs, key) <==> exists i :: 0 <= i < |xs| && key(xs[i]) == Some(k)
    decreases |xs|
  {
    if |xs| > 0 {
      var n := |xs| - 1;
      var init := xs[..n];
      IndexKeys(init, key, k);
      assert forall i :: 0 <= i < n ==> init[i] == xs[i];
    }
  }

  /** What the index holds under a key is the last item with that key. */
  lemma {:induction false} IndexLast<T>(xs: seq<T>, key: T -> Option<string>, k: string)
    requires k in IndexBy(xs, key)
    ensures exists i ::
      && 0 <= i < |xs| && key(xs[i]) == Some(k) && IndexBy(xs, key)[k] == xs[i]
      && forall j :: i < j < |xs| ==> key(xs[j]) != Some(k)
    decreases |xs|
  {
    var n := |xs| - 1;
    var init := xs[..n];
    if key(xs[n]) != Some(k) {
      IndexLast(init, key, k);
      var i :| 0 <= i < n && key(init[i]) == Some(k) && IndexBy(init, key)[k] == init[i]
        && forall j :: i < j < n ==> key(init[j]) != Some(k);
      assert forall j :: 0 <= j < n ==> init[j] == xs[j];
      assert IndexBy(xs, key)[k] == xs[i];
    }
  }

  /** Every item in the index is one of the items, stored under its own
      key. */
  lemma {:induction false} IndexValues<T>(xs: seq<T>, key: T -> Option<string>)
    ensures forall k :: k in IndexBy(xs, key) ==> IndexBy(xs, key)[k] in xs && key(IndexBy(xs, key)[k]) == Some(k)
    decreases |xs|
  {
    if |xs| > 0 {
      var init := xs[..|xs| - 1];
      IndexValues(init, key);
      assert forall e :: e in init ==> e in xs;
    }
  }

  /** Hence every email in the draft index is a draft filed under the first
      date of its own subject, and a sent email or one without a date in its
      subject is never in it. */
  lemma DraftIndexDrafts(results: seq<Email>)
    ensures forall k :: k in DraftIndex(results) ==>
      var e := DraftIndex(results)[k];
      e in results && e.status == "draft" && FirstDateText(e.subject) == Some(k)
  {
    IndexValues(results, DraftKey);
  }

  /** What `publish` sends: a subject without a date creates a draft
      straight away; otherwise the drafts are listed first, and the draft
      filed under the subject's date is updated if there is one. */
  function PublishCalls(subject: string, body: string, results: seq<Email>): seq<HttpCall> {
    var payload := Payload(subject, body, "draft");
    match FirstDateText(subject)
    case None => [Post(BaseUrl + "/emails", payload)]
    case Some(d) =>
      var drafts := DraftIndex(results);
      [Get(BaseUrl + "/emails?status=draft")]
      + if d in drafts then [Patch(BaseUrl + "/emails/" + drafts[d].id, payload)]
        else [Post(BaseUrl + "/emails", payload)]
  }

  /** A subject without a date never lists the drafts and always creates. */
  lemma NoDateCreates(subject: string, body: string, results: seq<Email>)
    requires FindDate(subject).None?
    ensures PublishCalls(subject, body, results) == [Post(BaseUrl + "/emails", Payload(subject, body, "draft"))]
  {
  }

  /** `publish` ends in exactly one write, and that write carries the
      subject, the body and the status `draft`. It is an update exactly
      when the subject holds a date under which some listed draft is filed,
      and then it goes to the last such draft. */
  lemma PublishWrite(subject: string, body: string, results: seq<Email>)
    ensures var calls := PublishCalls(subject, body, results); var last := calls[|calls| - 1];
      && (last.Post? || last.Patch?) && last.json == Payload(subject, body, "draft")
      && (forall i :: 0 <= i < |calls| - 1 ==> calls[i].Get?)
      && (last.Patch? <==> (FindDate(subject).Some? &&
            exists i :: 0 <= i < |results| && DraftKey(results[i]) == FirstDateText(subject)))
      && (last.Post? ==> last.url == BaseUrl + "/emails")
      && (last.Patch? ==> exists i ::
            && 0 <= i < |results| && DraftKey(results[i]) == FirstDateText(subject)
            && last.url == BaseUrl + "/emails/" + results[i].id
            && forall j :: i < j < |results| ==> DraftKey(results[j]) != FirstDateText(subject))
  {
    match FirstDateText(subject)
    case None =>
    case Some(d) =>
      IndexKeys(results, DraftKey, d);
      if d in DraftIndex(results) {
        IndexLast(results, DraftKey, d);
      }
  }

  /** `ButtondownClient`: the session reduced to its authorization header
      and the log of the requests made through it. */
  class ButtondownClient {
    const authorization: string
    var calls: seq<HttpCall>

    constructor(apiKey: string)
      ensures authorization == "Token " + apiKey && calls == []
    {
      authorization := "Token " + apiKey;
      calls := [];
    }

    /** `list_drafts`: `results` is the listing the service answers with. */
    method ListDrafts(results: seq<Email>) returns (drafts: map<string, Email>)
      modifies this
      ensures drafts == DraftIndex(results)
      ensures calls == old(calls) + [Get(BaseUrl + "/emails?status=draft")]
    {
      calls := calls + [Get(BaseUrl + "/emails?status=draft")];
      drafts := map[];
      var i := 0;
      while i < |results|
        invariant i <= |results|
        invariant drafts == DraftIndex(results[..i])
      {
        var email := results[i];
        assert results[..i + 1][..i] == results[..i];
        if email.status == "draft" {
          var dateMatch := FindDate(email.subject);
          if dateMatch.Some? {
            drafts := drafts[email.subject[dateMatch.value..dateMatch.value + 10] := email];
          }
        }
        i := i + 1;
      }
      assert results[..i] == results;
    }

    /** `create_draft` */
    method CreateDraft(subject: string, body: string)
      modifies this
      ensures calls == old(calls) + [Post(BaseUrl + "/emails", Payload(subject, body, "draft"))]
    {
      calls := calls + [Post(BaseUrl + "/emails", Payload(subject, body, "draft"))];
    }

    /** `update_draft` */
    method UpdateDraft(emailId: string, subject: string, body: string)
      modifies this
      ensures calls == old(calls) + [Patch(BaseUrl + "/emails/" + emailId, Payload(subject, body, "draft"))]
    {
      calls := calls + [Patch(BaseUrl + "/emails/" + emailId, Payload(subject, body, "draft"))];
    }

    /** `publish`: `results` is the listing the service would answer with
        if the drafts are listed. */
    method Publish(subject: string, body: string, results: seq<Email>)
      modifies this
      ensures calls == old(calls) + PublishCalls(subject, body, results)
    {
      var dateMatch := FindDate(subject);
      if dateMatch.Some? {
        var drafts := ListDrafts(results);
        var isoDate := subject[dateMatch.value..dateMatch.value + 10];
        if isoDate in drafts {
          UpdateDraft(drafts[isoDate].id, subject, body);
          return;
        }
      }
      CreateDraft(subject, body);
    }
  }
}
