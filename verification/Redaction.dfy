/** Redaction of event metadata: nested values under secret keys are replaced, URLs lose their secret parameters. */
module Redaction {
  import opened Basics
  import opened Text

  const REDACTED := "[REDACTED]"

  const SECRET_KEYS := {
    "password", "current_password", "new_password", "api_key", "raw_api_key", "authorization", "cookie", "set-cookie",
    "session_token", "imghost_delete_reauth", "token", "delete_token", "reauth_token", "delete_reauth_token",
    "delete_url", "manage_url"
  }
  const URL_KEYS := {"referer", "url", "delete_url", "manage_url"}
  const SECRET_QUERY_KEYS := {"token", "delete_token", "reauth_token", "delete_reauth_token"}

  datatype Entry = Entry(key: string, value: Value)

  datatype Value =
    | Dict(entries: seq<Entry>)
    | List(items: seq<Value>)
    | Tuple(items: seq<Value>)
    | Str(text: string)
    | Other(id: int)

  type Cleaner = string -> string

  predicate IsSecret(key: string) { Lower(key) in SECRET_KEYS }

  predicate IsUrl(e: Entry) { Lower(e.key) in URL_KEYS && e.value.Str? }

  function Redact(v: Value, clean: Cleaner): Value
    decreases v
  {
    match v
    case Dict(entries) => Dict(RedactEntries(entries, clean))
    case List(items) => List(RedactAll(items, clean))
    case Tuple(items) => Tuple(RedactAll(items, clean))
    case _ => v
  }

  function RedactEntries(entries: seq<Entry>, clean: Cleaner): (r: seq<Entry>)
    ensures |r| == |entries| && forall i :: 0 <= i < |entries| ==> r[i] == RedactEntry(entries[i], clean)
    decreases entries
  {
    seq(|entries|, i requires 0 <= i < |entries| => RedactEntry(entries[i], clean))
  }

  function RedactAll(items: seq<Value>, clean: Cleaner): (r: seq<Value>)
    ensures |r| == |items| && forall i :: 0 <= i < |items| ==> r[i] == Redact(items[i], clean)
    decreases items
  {
    seq(|items|, i requires 0 <= i < |items| => Redact(items[i], clean))
  }

  function RedactEntry(e: Entry, clean: Cleaner): Entry
    decreases e
  {
    Entry(e.key, if IsSecret(e.key) then Str(REDACTED)
                 else if IsUrl(e) then Str(clean(e.value.text))
                 else Redact(e.value, clean))
  }

  /** Nothing is left to hide: at every depth, what is under a secret key is the mark, and every URL is clean. */
  predicate IsRedacted(v: Value, clean: Cleaner)
    decreases v
  {
    match v
    case Dict(entries) => forall i :: 0 <= i < |entries| ==> EntryIsRedacted(entries[i], clean)
    case List(items) => forall i :: 0 <= i < |items| ==> IsRedacted(items[i], clean)
    case Tuple(items) => forall i :: 0 <= i < |items| ==> IsRedacted(items[i], clean)
    case _ => true
  }

  predicate EntryIsRedacted(e: Entry, clean: Cleaner)
    decreases e
  {
    if IsSecret(e.key) then e.value == Str(REDACTED)
    else if IsUrl(e) then clean(e.value.text) == e.value.text
    else IsRedacted(e.value, clean)
  }

  /** At every depth, what is under a secret key is the mark. */
  predicate HidesSecrets(v: Value)
    decreases v
  {
    match v
    case Dict(entries) =>
      forall i :: 0 <= i < |entries| ==>
        if IsSecret(entries[i].key) then entries[i].value == Str(REDACTED) else HidesSecrets(entries[i].value)
    case List(items) => forall i :: 0 <= i < |items| ==> HidesSecrets(items[i])
    case Tuple(items) => forall i :: 0 <= i < |items| ==> HidesSecrets(items[i])
    case _ => true
  }

  /** Every text that is cleaned as a URL is one the predicate holds of. */
  predicate EveryUrl(v: Value, holds: string -> bool)
    decreases v
  {
    match v
    case Dict(entries) => forall i :: 0 <= i < |entries| ==> EntryUrls(entries[i], holds)
    case List(items) => forall i :: 0 <= i < |items| ==> EveryUrl(items[i], holds)
    case Tuple(items) => forall i :: 0 <= i < |items| ==> EveryUrl(items[i], holds)
    case _ => true
  }

  predicate EntryUrls(e: Entry, holds: string -> bool)
    decreases e
  {
    if IsSecret(e.key) then true
    else if IsUrl(e) then holds(e.value.text)
    else EveryUrl(e.value, holds)
  }

  function Settles(clean: Cleaner): string -> bool {
    text => clean(clean(text)) == clean(text)
  }

  /** The same but for what is under secret keys and for what cleaning takes out of URLs. */
  predicate Equivalent(a: Value, b: Value, clean: Cleaner)
    decreases a
  {
    match (a, b)
    case (Dict(es), Dict(fs)) => |es| == |fs| && forall i :: 0 <= i < |es| ==> EquivalentEntries(es[i], fs[i], clean)
    case (List(xs), List(ys)) => |xs| == |ys| && forall i :: 0 <= i < |xs| ==> Equivalent(xs[i], ys[i], clean)
    case (Tuple(xs), Tuple(ys)) => |xs| == |ys| && forall i :: 0 <= i < |xs| ==> Equivalent(xs[i], ys[i], clean)
    case _ => a == b
  }

  predicate EquivalentEntries(e: Entry, f: Entry, clean: Cleaner)
    decreases e
  {
    && e.key == f.key
    && if IsSecret(e.key) then true
       else if IsUrl(e) && IsUrl(f) then clean(e.value.text) == clean(f.value.text)
       else if IsUrl(e) || IsUrl(f) then false
       else Equivalent(e.value, f.value, clean)
  }

  // ----- redaction hides exactly the secrets -----

  /** Whatever the cleaner does, no secret is left at any depth. */
  lemma {:induction false} RedactHidesSecrets(v: Value, clean: Cleaner)
    ensures HidesSecrets(Redact(v, clean))
    decreases v
  {
    match v
    case Dict(entries) =>
      var r := RedactEntries(entries, clean);
      forall i | 0 <= i < |r|
        ensures if IsSecret(r[i].key) then r[i].value == Str(REDACTED) else HidesSecrets(r[i].value)
      {
        assert r[i] == RedactEntry(entries[i], clean);
        EntryHidesSecrets(entries[i], clean);
      }
    case List(items) => ItemsHideSecrets(items, clean);
    case Tuple(items) => ItemsHideSecrets(items, clean);
    case _ =>
  }

  lemma {:induction false} EntryHidesSecrets(e: Entry, clean: Cleaner)
    ensures var r := RedactEntry(e, clean);
            if IsSecret(r.key) then r.value == Str(REDACTED) else HidesSecrets(r.value)
    decreases e
  {
    RedactHidesSecrets(e.value, clean);
  }

  lemma {:induction false} ItemsHideSecrets(items: seq<Value>, clean: Cleaner)
    ensures forall i :: 0 <= i < |items| ==> HidesSecrets(RedactAll(items, clean)[i])
    decreases items
  {
    forall i | 0 <= i < |items| ensures HidesSecrets(RedactAll(items, clean)[i]) {
      RedactHidesSecrets(items[i], clean);
    }
  }

  /** The result is clean exactly when cleaning each URL of the value a second time would change nothing. */
  lemma {:induction false} RedactIsRedacted(v: Value, clean: Cleaner)
    ensures IsRedacted(Redact(v, clean), clean) <==> EveryUrl(v, Settles(clean))
    decreases v
  {
    match v
    case Dict(entries) =>
      if EveryUrl(v, Settles(clean)) { EntriesBecomeRedacted(entries, clean); }
      if IsRedacted(Redact(v, clean), clean) { EntriesSettle(entries, clean); }
    case List(items) =>
      if EveryUrl(v, Settles(clean)) { ItemsBecomeRedacted(items, clean); }
      if IsRedacted(Redact(v, clean), clean) { ItemsSettle(items, clean); }
    case Tuple(items) =>
      if EveryUrl(v, Settles(clean)) { ItemsBecomeRedacted(items, clean); }
      if IsRedacted(Redact(v, clean), clean) { ItemsSettle(items, clean); }
    case _ =>
  }

  lemma {:induction false} EntryIsRedactedIff(e: Entry, clean: Cleaner)
    ensures EntryIsRedacted(RedactEntry(e, clean), clean) <==> EntryUrls(e, Settles(clean))
    decreases e
  {
    RedactKeepsKind(e.value, clean);
    RedactIsRedacted(e.value, clean);
  }

  lemma {:induction false} EntriesBecomeRedacted(entries: seq<Entry>, clean: Cleaner)
    requires forall i :: 0 <= i < |entries| ==> EntryUrls(entries[i], Settles(clean))
    ensures forall i :: 0 <= i < |entries| ==> EntryIsRedacted(RedactEntries(entries, clean)[i], clean)
    decreases entries
  {
    forall i | 0 <= i < |entries| ensures EntryIsRedacted(RedactEntries(entries, clean)[i], clean) {
      EntryIsRedactedIff(entries[i], clean);
    }
  }

  lemma {:induction false} EntriesSettle(entries: seq<Entry>, clean: Cleaner)
    requires forall i :: 0 <= i < |entries| ==> EntryIsRedacted(RedactEntries(entries, clean)[i], clean)
    ensures forall i :: 0 <= i < |entries| ==> EntryUrls(entries[i], Settles(clean))
    decreases entries
  {
    forall i | 0 <= i < |entries| ensures EntryUrls(entries[i], Settles(clean)) {
      assert RedactEntries(entries, clean)[i] == RedactEntry(entries[i], clean);
      EntryIsRedactedIff(entries[i], clean);
    }
  }

  lemma {:induction false} ItemsBecomeRedacted(items: seq<Value>, clean: Cleaner)
    requires forall i :: 0 <= i < |items| ==> EveryUrl(items[i], Settles(clean))
    ensures forall i :: 0 <= i < |items| ==> IsRedacted(RedactAll(items, clean)[i], clean)
    decreases items
  {
    forall i | 0 <= i < |items| ensures IsRedacted(RedactAll(items, clean)[i], clean) {
      RedactIsRedacted(items[i], clean);
    }
  }

  lemma {:induction false} ItemsSettle(items: seq<Value>, clean: Cleaner)
    requires forall i :: 0 <= i < |items| ==> IsRedacted(RedactAll(items, clean)[i], clean)
    ensures forall i :: 0 <= i < |items| ==> EveryUrl(items[i], Settles(clean))
    decreases items
  {
    forall i | 0 <= i < |items| ensures EveryUrl(items[i], Settles(clean)) {
      assert RedactAll(items, clean)[i] == Redact(items[i], clean);
      RedactIsRedacted(items[i], clean);
    }
  }

  lemma RedactKeepsKind(v: Value, clean: Cleaner)
    ensures Redact(v, clean).Str? <==> v.Str?
  {
  }

  /** Redaction leaves alone exactly the values that hold no secret. */
  lemma {:induction false} RedactedIffUnchanged(v: Value, clean: Cleaner)
    ensures Redact(v, clean) == v <==> IsRedacted(v, clean)
    decreases v
  {
    match v
    case Dict(entries) =>
      forall i | 0 <= i < |entries|
        ensures RedactEntries(entries, clean)[i] == entries[i] <==> EntryIsRedacted(entries[i], clean)
      {
        EntryUnchangedIff(entries[i], clean);
      }
      SameElements(RedactEntries(entries, clean), entries);
    case List(items) => ItemsUnchanged(items, clean);
    case Tuple(items) => ItemsUnchanged(items, clean);
    case _ =>
  }

  lemma {:induction false} EntryUnchangedIff(e: Entry, clean: Cleaner)
    ensures RedactEntry(e, clean) == e <==> EntryIsRedacted(e, clean)
    decreases e
  {
    RedactedIffUnchanged(e.value, clean);
  }

  lemma {:induction false} ItemsUnchanged(items: seq<Value>, clean: Cleaner)
    ensures RedactAll(items, clean) == items <==> forall i :: 0 <= i < |items| ==> IsRedacted(items[i], clean)
    decreases items
  {
    forall i | 0 <= i < |items| ensures RedactAll(items, clean)[i] == items[i] <==> IsRedacted(items[i], clean) {
      RedactedIffUnchanged(items[i], clean);
    }
    SameElements(RedactAll(items, clean), items);
  }

  /** Redacting twice is redacting once exactly when that is so of cleaning each URL of the value. */
  lemma RedactTwice(v: Value, clean: Cleaner)
    ensures Redact(Redact(v, clean), clean) == Redact(v, clean) <==> EveryUrl(v, Settles(clean))
  {
    RedactIsRedacted(v, clean);
    RedactedIffUnchanged(Redact(v, clean), clean);
  }

  lemma {:induction false} EveryUrlWeaker(v: Value, p: string -> bool, q: string -> bool)
    requires EveryUrl(v, p) && forall text :: p(text) ==> q(text)
    ensures EveryUrl(v, q)
    decreases v
  {
    match v
    case Dict(entries) =>
      forall i | 0 <= i < |entries| ensures EntryUrls(entries[i], q) {
        assert EntryUrls(entries[i], p);
        if !IsSecret(entries[i].key) && !IsUrl(entries[i]) { EveryUrlWeaker(entries[i].value, p, q); }
      }
    case List(items) => forall i | 0 <= i < |items| ensures EveryUrl(items[i], q) { EveryUrlWeaker(items[i], p, q); }
    case Tuple(items) => forall i | 0 <= i < |items| ensures EveryUrl(items[i], q) { EveryUrlWeaker(items[i], p, q); }
    case _ =>
  }

  /** Two values redact to the same exactly when they differ only in their secrets: the secrets do not show, and
      everything else does. */
  lemma {:induction false} RedactForgetsOnlySecrets(a: Value, b: Value, clean: Cleaner)
    ensures Redact(a, clean) == Redact(b, clean) <==> Equivalent(a, b, clean)
    decreases a
  {
    match (a, b)
    case (Dict(es), Dict(fs)) => EntriesForgetOnlySecrets(es, fs, clean);
    case (List(xs), List(ys)) => ItemsForgetOnlySecrets(xs, ys, clean);
    case (Tuple(xs), Tuple(ys)) => ItemsForgetOnlySecrets(xs, ys, clean);
    case _ =>
  }

  lemma {:induction false} EntryForgetsOnlySecrets(e: Entry, f: Entry, clean: Cleaner)
    ensures RedactEntry(e, clean) == RedactEntry(f, clean) <==> EquivalentEntries(e, f, clean)
    decreases e
  {
    RedactKeepsKind(e.value, clean);
    RedactKeepsKind(f.value, clean);
    RedactForgetsOnlySecrets(e.value, f.value, clean);
  }

  lemma {:induction false} EntriesForgetOnlySecrets(es: seq<Entry>, fs: seq<Entry>, clean: Cleaner)
    ensures RedactEntries(es, clean) == RedactEntries(fs, clean)
       <==> |es| == |fs| && forall i :: 0 <= i < |es| ==> EquivalentEntries(es[i], fs[i], clean)
    decreases es
  {
    if |es| == |fs| {
      forall i | 0 <= i < |es|
        ensures RedactEntries(es, clean)[i] == RedactEntries(fs, clean)[i] <==> EquivalentEntries(es[i], fs[i], clean)
      {
        EntryForgetsOnlySecrets(es[i], fs[i], clean);
      }
      SameElements(RedactEntries(es, clean), RedactEntries(fs, clean));
    } else {
      assert |RedactEntries(es, clean)| != |RedactEntries(fs, clean)|;
    }
  }

  lemma {:induction false} ItemsForgetOnlySecrets(xs: seq<Value>, ys: seq<Value>, clean: Cleaner)
    ensures RedactAll(xs, clean) == RedactAll(ys, clean)
       <==> |xs| == |ys| && forall i :: 0 <= i < |xs| ==> Equivalent(xs[i], ys[i], clean)
    decreases xs
  {
    if |xs| == |ys| {
      forall i | 0 <= i < |xs|
        ensures RedactAll(xs, clean)[i] == RedactAll(ys, clean)[i] <==> Equivalent(xs[i], ys[i], clean)
      {
        RedactForgetsOnlySecrets(xs[i], ys[i], clean);
      }
      SameElements(RedactAll(xs, clean), RedactAll(ys, clean));
    } else {
      assert |RedactAll(xs, clean)| != |RedactAll(ys, clean)|;
    }
  }

  lemma SameElements<T>(a: seq<T>, b: seq<T>)
    ensures a == b <==> |a| == |b| && forall i :: 0 <= i < |a| ==> a[i] == b[i]
  {
  }

  // ----- cleaning a URL -----

  datatype Rest = Rest(scheme: string, netloc: string, path: string, fragment: string)

  datatype Param = Param(key: string, value: string)

  /** The parts of urllib that are used: urlsplit (None when it raises) giving the query apart from the rest, parse_qsl,
      and urlencode with urlunsplit. */
  datatype Urls = Urls(split: string -> Option<(Rest, string)>, parse: string -> seq<Param>,
                       build: (Rest, seq<Param>) -> string)

  predicate IsSecretParam(p: Param) { Lower(p.key) in SECRET_QUERY_KEYS }

  function HideParams(items: seq<Param>): (r: seq<Param>)
    ensures |r| == |items|
    ensures forall i :: 0 <= i < |items| ==>
              r[i] == if IsSecretParam(items[i]) then items[i].(value := REDACTED) else items[i]
  {
    if items == [] then []
    else
      var last := items[|items| - 1];
      HideParams(items[..|items| - 1]) + [if IsSecretParam(last) then last.(value := REDACTED) else last]
  }

  /** The parameters of a URL, and the rest of it, if it can be read and has a query. */
  function Query(value: string, urls: Urls): Option<(Rest, seq<Param>)> {
    if Strip(value) == "" then None
    else match urls.split(Strip(value))
      case None => None
      case Some((rest, query)) => if query == "" then None else Some((rest, urls.parse(query)))
  }

  predicate HasSecret(items: seq<Param>) { exists i :: 0 <= i < |items| && IsSecretParam(items[i]) }

  function CleanUrl(value: string, urls: Urls): string {
    match Query(value, urls)
    case None => value
    case Some((rest, items)) => if HasSecret(items) then urls.build(rest, HideParams(items)) else value
  }

  /** _sanitize_url, with its flag. */
  method SanitizeUrl(value: string, urls: Urls) returns (r: string)
    ensures r == CleanUrl(value, urls)
  {
    var candidate := Strip(value);
    if candidate == "" {
      return value;
    }
    var parsed := urls.split(candidate);
    if parsed.None? {
      return value;
    }
    var (rest, query) := parsed.value;
    if query == "" {
      return value;
    }
    var changed := false;
    var items := urls.parse(query);
    var queryItems := [];
    for i := 0 to |items|
      invariant queryItems == HideParams(items[..i])
      invariant changed <==> HasSecret(items[..i])
    {
      assert items[..i + 1][..i] == items[..i];
      HasSecretNext(items[..i], items[i]);
      assert items[..i] + [items[i]] == items[..i + 1];
      if Lower(items[i].key) in SECRET_QUERY_KEYS {
        queryItems := queryItems + [Param(items[i].key, REDACTED)];
        changed := true;
      } else {
        queryItems := queryItems + [items[i]];
      }
    }
    assert items[..|items|] == items;
    if !changed {
      return value;
    }
    return urls.build(rest, queryItems);
  }

  lemma HasSecretNext(items: seq<Param>, p: Param)
    ensures HasSecret(items + [p]) <==> HasSecret(items) || IsSecretParam(p)
  {
    if HasSecret(items) {
      var i :| 0 <= i < |items| && IsSecretParam(items[i]);
      assert IsSecretParam((items + [p])[i]);
    }
    if IsSecretParam(p) { assert IsSecretParam((items + [p])[|items|]); }
  }

  /** What is assumed of urllib, for every text it is given to clean: if what is built from it can be read at all, it
      has the parameters it was built with. */
  ghost predicate ReadsParamsBack(urls: Urls) {
    forall value :: Query(value, urls).Some? && HasSecret(Query(value, urls).value.1) ==> ParamsComeBack(value, urls)
  }

  predicate ParamsComeBack(value: string, urls: Urls)
    requires Query(value, urls).Some?
  {
    var (rest, items) := Query(value, urls).value;
    var again := Query(urls.build(rest, HideParams(items)), urls);
    again.Some? ==> again.value.1 == HideParams(items)
  }

  /** Also assumed, for texts that do not begin with a control character, which urlsplit skips and str.strip does not:
      the rest that is read from what is built makes the same text again. It need not be the rest it was built with. */
  ghost predicate BuildsAgain(urls: Urls) {
    forall value :: Query(value, urls).Some? && HasSecret(Query(value, urls).value.1) && BeginsPlainly(value) ==>
      RestBuildsAgain(value, urls)
  }

  predicate RestBuildsAgain(value: string, urls: Urls)
    requires Query(value, urls).Some?
  {
    var (rest, items) := Query(value, urls).value;
    var built := urls.build(rest, HideParams(items));
    Query(built, urls).Some? ==> urls.build(Query(built, urls).value.0, HideParams(items)) == built
  }

  predicate BeginsPlainly(value: string) {
    Strip(value) == "" || Strip(value)[0] > ' '
  }

  /** Whatever can be read of a cleaned URL has every secret parameter hidden, and no other parameter changed, lost or
      added. */
  lemma CleanUrlHides(value: string, urls: Urls)
    requires ReadsParamsBack(urls) && Query(value, urls).Some?
    ensures Query(CleanUrl(value, urls), urls).Some? ==>
              Query(CleanUrl(value, urls), urls).value.1 == HideParams(Query(value, urls).value.1)
  {
    var (rest, items) := Query(value, urls).value;
    if HasSecret(items) {
      assert ParamsComeBack(value, urls);
    } else {
      assert HideParams(items) == items;
    }
  }

  lemma HideTwice(items: seq<Param>)
    ensures HideParams(HideParams(items)) == HideParams(items)
    ensures HasSecret(HideParams(items)) <==> HasSecret(items)
  {
    if HasSecret(items) {
      var i :| 0 <= i < |items| && IsSecretParam(items[i]);
      assert IsSecretParam(HideParams(items)[i]);
    }
    if HasSecret(HideParams(items)) {
      var i :| 0 <= i < |items| && IsSecretParam(HideParams(items)[i]);
      assert IsSecretParam(items[i]);
    }
  }

  /** Cleaning a URL twice is cleaning it once, exactly when the rest of what was built builds it again. */
  lemma CleanUrlTwiceExactly(value: string, urls: Urls)
    requires ReadsParamsBack(urls)
    ensures CleanUrl(CleanUrl(value, urls), urls) == CleanUrl(value, urls)
       <==> (Query(value, urls).Some? && HasSecret(Query(value, urls).value.1) ==> RestBuildsAgain(value, urls))
  {
    if Query(value, urls).Some? && HasSecret(Query(value, urls).value.1) {
      assert ParamsComeBack(value, urls);
      HideTwice(Query(value, urls).value.1);
    }
  }

  /** So it is for every text that does not begin with a control character. */
  lemma CleanUrlTwice(value: string, urls: Urls)
    requires ReadsParamsBack(urls) && BuildsAgain(urls) && BeginsPlainly(value)
    ensures CleanUrl(CleanUrl(value, urls), urls) == CleanUrl(value, urls)
  {
    CleanUrlTwiceExactly(value, urls);
  }

  // ----- a text that is cleaned differently the second time -----

  /** A control character, then a blank (U+2003): str.strip stops at the first, urlsplit skips it alone. */
  const CONTROL_FIRST := "\U{1}\U{2003}x?token=a"
  const BLANK_FIRST := "\U{2003}x?token=[REDACTED]"
  const PLAIN := "x?token=[REDACTED]"

  const BLANK_PATH := Rest("", "", "\U{2003}x", "")
  const PLAIN_PATH := Rest("", "", "x", "")

  /** What urllib makes of these texts; it reads and builds no others here. */
  function FewUrls(): Urls {
    Urls(
      (text: string) =>
        if text == CONTROL_FIRST then Some((BLANK_PATH, "token=a"))
        else if text == PLAIN then Some((PLAIN_PATH, "token=[REDACTED]"))
        else None,
      (query: string) => [Param("token", if query == "token=a" then "a" else REDACTED)],
      (rest: Rest, items: seq<Param>) => if rest == BLANK_PATH then BLANK_FIRST else PLAIN
    )
  }

  lemma StripFew()
    ensures Strip(CONTROL_FIRST) == CONTROL_FIRST && Strip(PLAIN) == PLAIN && Strip(BLANK_FIRST) == PLAIN
  {
    StripNothing(CONTROL_FIRST);
    StripNothing(PLAIN);
    assert BLANK_FIRST[1..] == PLAIN;
  }

  lemma HideToken(value: string)
    ensures HasSecret([Param("token", value)]) && HideParams([Param("token", value)]) == [Param("token", REDACTED)]
  {
    assert Lower("token") == "token";
    assert IsSecretParam([Param("token", value)][0]);
  }

  lemma FewAreDifferent()
    ensures CONTROL_FIRST != PLAIN && BLANK_FIRST != PLAIN && CONTROL_FIRST != "" && PLAIN != ""
    ensures BLANK_PATH != PLAIN_PATH
  {
    assert CONTROL_FIRST[0] != PLAIN[0];
    assert BLANK_FIRST[0] != PLAIN[0];
    assert BLANK_PATH.path[0] != PLAIN_PATH.path[0];
  }

  lemma FewUrlsQuery(text: string)
    ensures Query(text, FewUrls()) ==
      if Strip(text) == CONTROL_FIRST then Some((BLANK_PATH, [Param("token", "a")]))
      else if Strip(text) == PLAIN then Some((PLAIN_PATH, [Param("token", REDACTED)]))
      else None
  {
    FewAreDifferent();
    assert "token=a"[6] != "token=[REDACTED]"[6];
  }

  lemma FewUrlsReadParamsBack()
    ensures ReadsParamsBack(FewUrls())
  {
    var urls := FewUrls();
    forall text | Query(text, urls).Some? && HasSecret(Query(text, urls).value.1) ensures ParamsComeBack(text, urls) {
      StripFew();
      FewUrlsQuery(text);
      FewUrlsQuery(BLANK_FIRST);
      FewUrlsQuery(PLAIN);
      HideToken("a");
      HideToken(REDACTED);
    }
  }

  lemma FewCleaned(text: string, rest: Rest, value: string)
    requires Query(text, FewUrls()) == Some((rest, [Param("token", value)]))
    ensures CleanUrl(text, FewUrls()) == if rest == BLANK_PATH then BLANK_FIRST else PLAIN
    ensures HasSecret(Query(text, FewUrls()).value.1)
  {
    HideToken(value);
  }

  /** A text on either side of that condition: what is built from the one that begins with a control character begins
      with a blank, which the second cleaning strips; the plain one stays as it is. */
  lemma CleanUrlTwiceCanDiffer()
    ensures ReadsParamsBack(FewUrls())
    ensures Query(CONTROL_FIRST, FewUrls()).Some? && !RestBuildsAgain(CONTROL_FIRST, FewUrls())
    ensures CleanUrl(CONTROL_FIRST, FewUrls()) == BLANK_FIRST && CleanUrl(BLANK_FIRST, FewUrls()) == PLAIN
    ensures PLAIN != BLANK_FIRST
    ensures Query(PLAIN, FewUrls()).Some? && RestBuildsAgain(PLAIN, FewUrls())
  {
    var urls := FewUrls();
    FewUrlsReadParamsBack();
    FewAreDifferent();
    FewQueries();
    FewCleaned(CONTROL_FIRST, BLANK_PATH, "a");
    FewCleaned(BLANK_FIRST, PLAIN_PATH, REDACTED);
    FewCleaned(PLAIN, PLAIN_PATH, REDACTED);
    CleanUrlTwiceExactly(CONTROL_FIRST, urls);
    CleanUrlTwiceExactly(PLAIN, urls);
  }

  lemma FewQueries()
    ensures Query(CONTROL_FIRST, FewUrls()) == Some((BLANK_PATH, [Param("token", "a")]))
    ensures Query(BLANK_FIRST, FewUrls()) == Some((PLAIN_PATH, [Param("token", REDACTED)]))
    ensures Query(PLAIN, FewUrls()) == Some((PLAIN_PATH, [Param("token", REDACTED)]))
  {
    StripFew();
    FewAreDifferent();
    FewUrlsQuery(CONTROL_FIRST);
    FewUrlsQuery(BLANK_FIRST);
    FewUrlsQuery(PLAIN);
  }

  /** redact_metadata with this cleaner: no secret is left, and redacting twice is redacting once. */
  lemma RedactMetadataTwice(v: Value, urls: Urls)
    requires ReadsParamsBack(urls) && BuildsAgain(urls) && EveryUrl(v, BeginsPlainly)
    ensures var clean := (s: string) => CleanUrl(s, urls);
            Redact(Redact(v, clean), clean) == Redact(v, clean) && IsRedacted(Redact(v, clean), clean)
  {
    var clean := (s: string) => CleanUrl(s, urls);
    forall text | BeginsPlainly(text) ensures Settles(clean)(text) { CleanUrlTwice(text, urls); }
    EveryUrlWeaker(v, BeginsPlainly, Settles(clean));
    RedactTwice(v, clean);
    RedactIsRedacted(v, clean);
  }
}
