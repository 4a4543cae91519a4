/** What the Cache API commands do to the caches of one origin. */
module CacheModel {
  import opened Outcome
  import opened Totals

  datatype Request = Request(url: string, verb: string, headers: seq<(string, string)>)

  datatype Response = Response(status: nat, statusText: string, responseType: string, url: string,
                               redirected: bool, headers: seq<(string, string)>, body: Option<string>)

  datatype Entry = Entry(request: Request, response: Response)

  datatype Options = Options(ignoreSearch: bool, ignoreMethod: bool, ignoreVary: bool)

  const STRICT: Options := Options(false, false, false)

  datatype NamedCache = NamedCache(name: seq<nat>, entries: seq<Entry>)

  const MAX_NAME_BYTES: nat := 1024

  datatype CacheError = InvalidRequest | InvalidResponse | VaryStar | Quota | Duplicate | Persistence

  datatype Command =
    | Open(name: seq<nat>)
    | Has(name: seq<nat>)
    | Names
    | DeleteCache(name: seq<nat>)
    | Match(only: Option<seq<nat>>, request: Request, options: Options)
    | MatchAll(name: seq<nat>, wanted: Option<Request>, options: Options)
    | Keys(name: seq<nat>, wanted: Option<Request>, options: Options)
    | Put(name: seq<nat>, entries: seq<Entry>)
    | DeleteEntry(name: seq<nat>, request: Request, options: Options)

  datatype Reply =
    | Nothing
    | Truth(truth: bool)
    | NameList(names: seq<seq<nat>>)
    | FirstMatch(response: Option<Response>)
    | Responses(responses: seq<Response>)
    | Requests(requests: seq<Request>)

  /** Request matching and entry validation, which live in code that is not part of this model. */
  datatype Oracle = Oracle(matches: (Request, Entry, Options) -> bool, check: Entry -> Option<CacheError>,
      trusted: string -> bool)

  /** The index of the cache of this name, or the number of caches. */
  function Find(caches: seq<NamedCache>, name: seq<nat>): (i: nat)
    ensures i <= |caches| && (i < |caches| ==> caches[i].name == name)
    ensures forall j :: 0 <= j < i ==> caches[j].name != name
  {
    if caches == [] || caches[0].name == name then 0 else 1 + Find(caches[1..], name)
  }

  function Unmatched(o: Oracle, r: Request, options: Options): Entry -> bool {
    (e: Entry) => !o.matches(r, e, options)
  }

  function Matched(o: Oracle, r: Request, options: Options): Entry -> bool {
    (e: Entry) => o.matches(r, e, options)
  }

  function Wanted(o: Oracle, r: Option<Request>, options: Options): Entry -> bool {
    (e: Entry) => r.None? || o.matches(r.value, e, options)
  }

  // ---------- Storing a batch ----------

  /** Entries that no request of the batch matches. */
  function NoneMatch(o: Oracle, batch: seq<Entry>): Entry -> bool {
    (e: Entry) => forall i :: 0 <= i < |batch| ==> !o.matches(batch[i].request, e, STRICT)
  }

  /** Some entry of the batch is matched by the request of a later one. */
  predicate Repeats(o: Oracle, batch: seq<Entry>) {
    exists i, j :: 0 <= i < j < |batch| && o.matches(batch[j].request, batch[i], STRICT)
  }

  /** What a batch leaves stored: the entries none of its requests matches, then the batch itself in order. */
  function Stored(o: Oracle, entries: seq<Entry>, batch: seq<Entry>): seq<Entry> {
    Filter(entries, NoneMatch(o, batch)) + batch
  }

  lemma StoredNext(o: Oracle, entries: seq<Entry>, batch: seq<Entry>, e: Entry)
    requires !Repeats(o, batch + [e])
    ensures Filter(Stored(o, entries, batch), Unmatched(o, e.request, STRICT)) + [e] == Stored(o, entries, batch + [e])
  {
    var unmatched := Unmatched(o, e.request, STRICT);
    var all := batch + [e];
    forall i | 0 <= i < |batch| ensures unmatched(batch[i]) {
      assert all[i] == batch[i] && all[|batch|] == e;
    }
    FilterAll(batch, unmatched);
    FilterConcat(Filter(entries, NoneMatch(o, batch)), batch, unmatched);
    NarrowedTwice(o, entries, batch, e);
    assert Filter(entries, NoneMatch(o, all)) + batch + [e] == Filter(entries, NoneMatch(o, all)) + (batch + [e]);
  }

  lemma NarrowedTwice(o: Oracle, entries: seq<Entry>, batch: seq<Entry>, e: Entry)
    ensures Filter(Filter(entries, NoneMatch(o, batch)), Unmatched(o, e.request, STRICT)) ==
      Filter(entries, NoneMatch(o, batch + [e]))
  {
    var all := batch + [e];
    forall x: Entry ensures NoneMatch(o, all)(x) <==> NoneMatch(o, batch)(x) && Unmatched(o, e.request, STRICT)(x) {
      assert all[|batch|] == e && forall i :: 0 <= i < |batch| ==> all[i] == batch[i];
    }
    FilterTwice(entries, NoneMatch(o, batch), Unmatched(o, e.request, STRICT), NoneMatch(o, all));
  }

  lemma ShorterRepeats(o: Oracle, batch: seq<Entry>, n: nat)
    requires n <= |batch| && !Repeats(o, batch)
    ensures !Repeats(o, batch[..n])
  {
  }

  /** The loop that stores a batch, entry by entry, replacing what each of them matches. */
  method StoreBatch(o: Oracle, entries: seq<Entry>, batch: seq<Entry>) returns (r: seq<Entry>)
    requires !Repeats(o, batch)
    ensures r == Stored(o, entries, batch)
  {
    r := entries;
    FilterAll(entries, NoneMatch(o, []));
    for i := 0 to |batch|
      invariant r == Stored(o, entries, batch[..i])
    {
      ShorterRepeats(o, batch, i + 1);
      assert batch[..i + 1] == batch[..i] + [batch[i]];
      StoredNext(o, entries, batch[..i], batch[i]);
      r := Filter(r, Unmatched(o, batch[i].request, STRICT)) + [batch[i]];
    }
    assert batch[..|batch|] == batch;
  }

  /** The first reason an entry of a batch is refused. */
  function FirstRefusal(o: Oracle, batch: seq<Entry>): (r: Option<CacheError>)
    ensures r.None? <==> forall i :: 0 <= i < |batch| ==> o.check(batch[i]).None?
  {
    if batch == [] then None
    else if o.check(batch[0]).Some? then o.check(batch[0])
    else FirstRefusal(o, batch[1..])
  }

  // ---------- Commands ----------

  predicate Changes(c: Command) {
    c.Open? || c.DeleteCache? || c.Put? || c.DeleteEntry?
  }

  function OtherName(name: seq<nat>): NamedCache -> bool {
    (c: NamedCache) => c.name != name
  }

  /** The reply to a changing command, whether it changes anything, and the caches after it. */
  function Edit(o: Oracle, caches: seq<NamedCache>, c: Command): Result<(Reply, bool, seq<NamedCache>), CacheError>
    requires Changes(c)
  {
    match c
    case Open(name) =>
      if |name| > MAX_NAME_BYTES then Err(Quota)
      else if Find(caches, name) < |caches| then Ok((Nothing, false, caches))
      else Ok((Nothing, true, caches + [NamedCache(name, [])]))
    case DeleteCache(name) =>
      var kept := Filter(caches, OtherName(name));
      Ok((Truth(|kept| != |caches|), |kept| != |caches|, kept))
    case Put(name, entries) =>
      if |name| > MAX_NAME_BYTES then Err(Quota)
      else if entries == [] then Ok((Nothing, false, caches))
      else if FirstRefusal(o, entries).Some? then Err(FirstRefusal(o, entries).value)
      else if Repeats(o, entries) then Err(Duplicate)
      else
        var i := Find(caches, name);
        if i == |caches| then Err(InvalidRequest)
        else Ok((Nothing, true, caches[i := NamedCache(name, Stored(o, caches[i].entries, entries))]))
    case DeleteEntry(name, request, options) =>
      var i := Find(caches, name);
      if i == |caches| then Ok((Truth(false), false, caches))
      else
        var kept := Filter(caches[i].entries, Unmatched(o, request, options));
        var changed := |kept| != |caches[i].entries|;
        Ok((Truth(changed), changed, caches[i := NamedCache(name, kept)]))
  }

  function ResponsesOf(entries: seq<Entry>): seq<Response> {
    seq(|entries|, i requires 0 <= i < |entries| => entries[i].response)
  }

  function RequestsOf(entries: seq<Entry>): seq<Request> {
    seq(|entries|, i requires 0 <= i < |entries| => entries[i].request)
  }

  function NamesOf(caches: seq<NamedCache>): seq<seq<nat>> {
    seq(|caches|, i requires 0 <= i < |caches| => caches[i].name)
  }

  /** The entries of every cache a query may look in, oldest cache first. */
  function Searched(caches: seq<NamedCache>, only: Option<seq<nat>>): seq<Entry> {
    if caches == [] then []
    else (if only.None? || only.value == caches[0].name then caches[0].entries else []) + Searched(caches[1..], only)
  }

  function EntriesOf(caches: seq<NamedCache>, name: seq<nat>): seq<Entry> {
    var i := Find(caches, name);
    if i == |caches| then [] else caches[i].entries
  }

  function Answer(o: Oracle, caches: seq<NamedCache>, c: Command): Reply
    requires !Changes(c)
  {
    match c
    case Has(name) => Truth(Find(caches, name) < |caches|)
    case Names => NameList(NamesOf(caches))
    case Match(only, request, options) =>
      var found := Filter(Searched(caches, only), Matched(o, request, options));
      FirstMatch(if found == [] then None else Some(found[0].response))
    case MatchAll(name, wanted, options) =>
      Responses(ResponsesOf(Filter(EntriesOf(caches, name), Wanted(o, wanted, options))))
    case Keys(name, wanted, options) =>
      Requests(RequestsOf(Filter(EntriesOf(caches, name), Wanted(o, wanted, options))))
  }

  // ---------- What an edit keeps ----------

  ghost predicate DistinctNames(caches: seq<NamedCache>) {
    forall i, j :: 0 <= i < j < |caches| ==> caches[i].name != caches[j].name
  }

  lemma {:induction false} FilteredDistinct(caches: seq<NamedCache>, name: seq<nat>)
    requires DistinctNames(caches)
    ensures DistinctNames(Filter(caches, OtherName(name)))
    ensures forall i :: 0 <= i < |Filter(caches, OtherName(name))| ==>
      Filter(caches, OtherName(name))[i] in caches && Filter(caches, OtherName(name))[i].name != name
  {
    if caches != [] {
      var n := |caches| - 1;
      FilteredDistinct(caches[..n], name);
      var kept := Filter(caches[..n], OtherName(name));
      forall i | 0 <= i < |kept| ensures kept[i].name != caches[n].name {
        assert kept[i] in caches[..n];
      }
    }
  }

  /** An unchanging edit hands back the caches it was given. */
  lemma UnchangedSame(o: Oracle, caches: seq<NamedCache>, c: Command)
    requires Changes(c) && Edit(o, caches, c).Ok? && !Edit(o, caches, c).value.1
    ensures Edit(o, caches, c).value.2 == caches
  {
    if c.DeleteCache? {
      KeptWhole(caches, OtherName(c.name));
    } else if c.DeleteEntry? {
      var i := Find(caches, c.name);
      if i < |caches| {
        KeptWhole(caches[i].entries, Unmatched(o, c.request, c.options));
        assert caches[i] == NamedCache(c.name, caches[i].entries);
      }
    }
  }

  lemma {:induction false} KeptWhole<T>(s: seq<T>, keep: T -> bool)
    ensures |Filter(s, keep)| <= |s|
    ensures |Filter(s, keep)| == |s| ==> Filter(s, keep) == s
  {
    if s != [] {
      KeptWhole(s[..|s| - 1], keep);
    }
  }

  /** Every edit keeps the names of an origin's caches distinct. */
  lemma EditKeepsDistinct(o: Oracle, caches: seq<NamedCache>, c: Command)
    requires Changes(c) && DistinctNames(caches) && Edit(o, caches, c).Ok?
    ensures DistinctNames(Edit(o, caches, c).value.2)
  {
    hide Filter, Stored, Repeats, FirstRefusal;
    if c.DeleteCache? {
      FilteredDistinct(caches, c.name);
    }
  }

  /** Only the named cache changes: queries by any other name answer as before. */
  lemma EditIsLocal(o: Oracle, caches: seq<NamedCache>, c: Command, other: seq<nat>)
    requires Changes(c) && DistinctNames(caches) && Edit(o, caches, c).Ok? && other != c.name
    ensures EntriesOf(Edit(o, caches, c).value.2, other) == EntriesOf(caches, other)
    ensures (Find(Edit(o, caches, c).value.2, other) == |Edit(o, caches, c).value.2|) ==
      (Find(caches, other) == |caches|)
  {
    hide Stored, Repeats, FirstRefusal;
    var after := Edit(o, caches, c).value.2;
    if c.DeleteCache? {
      FindFiltered(caches, c.name, other);
    } else {
      FindUnique(caches, other);
      FindUnique(after, other);
      EditKeepsDistinct(o, caches, c);
      var i := Find(caches, other);
      if i < |caches| {
        assert after[i] == caches[i];
        FoundAt(after, other, i);
      } else {
        NotFound(after, other);
      }
    }
  }

  lemma FindUnique(caches: seq<NamedCache>, name: seq<nat>)
    ensures Find(caches, name) == |caches| <==> forall i :: 0 <= i < |caches| ==> caches[i].name != name
  {
  }

  lemma FoundAt(caches: seq<NamedCache>, name: seq<nat>, i: nat)
    requires DistinctNames(caches) && i < |caches| && caches[i].name == name
    ensures Find(caches, name) == i
  {
  }

  lemma NotFound(caches: seq<NamedCache>, name: seq<nat>)
    requires forall i :: 0 <= i < |caches| ==> caches[i].name != name
    ensures Find(caches, name) == |caches|
  {
  }

  lemma EntriesFirst(x: NamedCache, rest: seq<NamedCache>, name: seq<nat>)
    ensures EntriesOf([x] + rest, name) == if x.name == name then x.entries else EntriesOf(rest, name)
    ensures (Find([x] + rest, name) == |rest| + 1) == (x.name != name && Find(rest, name) == |rest|)
  {
    assert ([x] + rest)[1..] == rest;
  }

  lemma {:induction false} FindFiltered(caches: seq<NamedCache>, gone: seq<nat>, other: seq<nat>)
    requires other != gone
    ensures EntriesOf(Filter(caches, OtherName(gone)), other) == EntriesOf(caches, other)
    ensures var kept := Filter(caches, OtherName(gone));
      (Find(kept, other) == |kept|) == (Find(caches, other) == |caches|)
  {
    if caches != [] {
      FindFiltered(caches[1..], gone, other);
      FilterParts([], caches[0], caches[1..], OtherName(gone));
      assert [] + [caches[0]] + caches[1..] == caches;
      var kept := Filter(caches[1..], OtherName(gone));
      assert [caches[0]] + caches[1..] == caches;
      EntriesFirst(caches[0], caches[1..], other);
      EntriesFirst(caches[0], kept, other);
      assert Filter(caches, OtherName(gone)) == if caches[0].name != gone then [caches[0]] + kept else kept;
    }
  }
}
