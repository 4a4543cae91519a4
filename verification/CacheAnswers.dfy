/** What queries answer and what edits leave, told by names, matches and order. */
module CacheAnswers {
  import opened Outcome
  import opened Totals
  import opened CacheModel

  ghost predicate Named(caches: seq<NamedCache>, name: seq<nat>) {
    exists i :: 0 <= i < |caches| && caches[i].name == name
  }

  /** The first cache of this name. */
  ghost predicate FirstNamed(caches: seq<NamedCache>, name: seq<nat>, i: nat) {
    i < |caches| && caches[i].name == name && forall j :: 0 <= j < i ==> caches[j].name != name
  }

  /** A request asks for this entry; no request asks for every one. */
  function Asks(o: Oracle, wanted: Option<Request>, options: Options): Entry -> bool {
    (e: Entry) => match wanted
      case None => true
      case Some(request) => o.matches(request, e, options)
  }

  function Misses(o: Oracle, request: Request, options: Options): Entry -> bool {
    (e: Entry) => !o.matches(request, e, options)
  }

  /** No request of a batch asks, under the strict rules, for this entry. */
  function MissesAll(o: Oracle, batch: seq<Entry>): Entry -> bool {
    (e: Entry) => forall i :: 0 <= i < |batch| ==> !o.matches(batch[i].request, e, Options(false, false, false))
  }

  lemma FindExact(caches: seq<NamedCache>, name: seq<nat>)
    ensures Find(caches, name) < |caches| <==> Named(caches, name)
    ensures forall i: nat :: FirstNamed(caches, name, i) ==> Find(caches, name) == i
  {
  }

  // ---------- Queries ----------

  lemma HasExact(o: Oracle, caches: seq<NamedCache>, name: seq<nat>)
    ensures Answer(o, caches, Has(name)) == Truth(Named(caches, name))
  {
    FindExact(caches, name);
  }

  lemma NamesExact(o: Oracle, caches: seq<NamedCache>)
    ensures var r := Answer(o, caches, Names);
      r.NameList? && |r.names| == |caches| && forall i :: 0 <= i < |caches| ==> r.names[i] == caches[i].name
  {
  }

  /** Entry `k` of cache `i` is one the query is about, and matches. */
  ghost predicate Hit(o: Oracle, caches: seq<NamedCache>, only: Option<seq<nat>>, request: Request, options: Options,
                      i: nat, k: nat)
  {
    && i < |caches| && k < |caches[i].entries|
    && (only.None? || only.value == caches[i].name)
    && o.matches(request, caches[i].entries[k], options)
  }

  /** No hit comes before entry `k` of cache `i`. */
  ghost predicate NoneBefore(o: Oracle, caches: seq<NamedCache>, only: Option<seq<nat>>, request: Request,
                             options: Options, i: nat, k: nat)
  {
    forall i': nat, k': nat :: (i' < i || (i' == i && k' < k)) ==> !Hit(o, caches, only, request, options, i', k')
  }

  lemma {:induction false} FilterHead<T>(s: seq<T>, keep: T -> bool)
    requires s != []
    ensures Filter(s, keep) == (if keep(s[0]) then [s[0]] else []) + Filter(s[1..], keep)
  {
    assert s == [s[0]] + s[1..];
    FilterConcat([s[0]], s[1..], keep);
    assert [s[0]][..0] == [];
  }

  /** The first element that is kept is the first of the filtered ones. */
  lemma {:induction false} FilterFirst<T>(s: seq<T>, keep: T -> bool, k: nat)
    requires k < |s| && keep(s[k]) && forall j :: 0 <= j < k ==> !keep(s[j])
    ensures Filter(s, keep) != [] && Filter(s, keep)[0] == s[k]
    decreases k
  {
    FilterHead(s, keep);
    if k > 0 {
      FilterFirst(s[1..], keep, k - 1);
    }
  }

  lemma SearchedOn(caches: seq<NamedCache>, only: Option<seq<nat>>)
    requires caches != []
    ensures Searched(caches, only) ==
      (if only.None? || only.value == caches[0].name then caches[0].entries else []) + Searched(caches[1..], only)
  {
  }

  lemma {:induction false} MatchNothing(o: Oracle, caches: seq<NamedCache>, only: Option<seq<nat>>, request: Request,
                                        options: Options)
    requires forall i: nat, k: nat :: !Hit(o, caches, only, request, options, i, k)
    ensures Filter(Searched(caches, only), Matched(o, request, options)) == []
  {
    if caches != [] {
      var keep, here := Matched(o, request, options),
        if only.None? || only.value == caches[0].name then caches[0].entries else [];
      forall k | 0 <= k < |here| ensures !keep(here[k]) {
        assert !Hit(o, caches, only, request, options, 0, k);
      }
      forall i: nat, k: nat ensures !Hit(o, caches[1..], only, request, options, i, k) {
        assert !Hit(o, caches, only, request, options, i + 1, k);
      }
      MatchNothing(o, caches[1..], only, request, options);
      FilterNone(here, keep);
      FilterConcat(here, Searched(caches[1..], only), keep);
    }
  }

  lemma {:induction false} MatchSomething(o: Oracle, caches: seq<NamedCache>, only: Option<seq<nat>>, request: Request,
                                          options: Options, i: nat, k: nat)
    requires Hit(o, caches, only, request, options, i, k)
    requires NoneBefore(o, caches, only, request, options, i, k)
    ensures var found := Filter(Searched(caches, only), Matched(o, request, options));
      found != [] && found[0] == caches[i].entries[k]
    decreases i
  {
    var keep, here := Matched(o, request, options),
      if only.None? || only.value == caches[0].name then caches[0].entries else [];
    FilterConcat(here, Searched(caches[1..], only), keep);
    if i == 0 {
      forall j | 0 <= j < k ensures !keep(here[j]) {
        assert !Hit(o, caches, only, request, options, 0, j);
      }
      FilterFirst(here, keep, k);
    } else {
      forall j | 0 <= j < |here| ensures !keep(here[j]) {
        assert !Hit(o, caches, only, request, options, 0, j);
      }
      FilterNone(here, keep);
      forall i': nat, k': nat | i' < i - 1 || (i' == i - 1 && k' < k)
        ensures !Hit(o, caches[1..], only, request, options, i', k') {
        assert !Hit(o, caches, only, request, options, i' + 1, k');
      }
      MatchSomething(o, caches[1..], only, request, options, i - 1, k);
    }
  }

  /** A match answers with the first matching entry, oldest cache first, and with nothing exactly when none matches. */
  lemma MatchExact(o: Oracle, caches: seq<NamedCache>, only: Option<seq<nat>>, request: Request, options: Options)
    ensures var r := Answer(o, caches, Match(only, request, options));
      && r.FirstMatch?
      && ((forall i: nat, k: nat :: !Hit(o, caches, only, request, options, i, k)) ==> r.response == None)
      && forall i: nat, k: nat ::
        Hit(o, caches, only, request, options, i, k) && NoneBefore(o, caches, only, request, options, i, k) ==>
        r.response == Some(caches[i].entries[k].response)
  {
    if forall i: nat, k: nat :: !Hit(o, caches, only, request, options, i, k) {
      MatchNothing(o, caches, only, request, options);
    }
    forall i: nat, k: nat |
      Hit(o, caches, only, request, options, i, k) && NoneBefore(o, caches, only, request, options, i, k)
      ensures Answer(o, caches, Match(only, request, options)).response == Some(caches[i].entries[k].response)
    {
      MatchSomething(o, caches, only, request, options, i, k);
    }
  }

  lemma {:induction false} SelectedAre(o: Oracle, entries: seq<Entry>, wanted: Option<Request>, options: Options)
    ensures var r, at := Filter(entries, Wanted(o, wanted, options)), Places(entries, Asks(o, wanted, options));
      && |r| == |at|
      && forall k :: k in at ==>
        |Places(entries[..k], Asks(o, wanted, options))| < |r|
        && r[|Places(entries[..k], Asks(o, wanted, options))|] == entries[k]
  {
    FilterAgree(entries, Wanted(o, wanted, options), Asks(o, wanted, options));
    FilterRanks(entries, Asks(o, wanted, options));
  }

  /**
    * All matches are the responses to the entries asked for, in the order they are stored; none of a
    * cache that is missing.
    */
  lemma MatchAllExact(o: Oracle, caches: seq<NamedCache>, name: seq<nat>, wanted: Option<Request>, options: Options)
    ensures var r := Answer(o, caches, MatchAll(name, wanted, options));
      && r.Responses?
      && (!Named(caches, name) ==> r.responses == [])
      && forall i: nat :: FirstNamed(caches, name, i) ==>
        var entries := caches[i].entries;
        var asks := Asks(o, wanted, options);
        && |r.responses| == |Places(entries, asks)|
        && forall k :: k in Places(entries, asks) ==>
          |Places(entries[..k], asks)| < |r.responses|
          && r.responses[|Places(entries[..k], asks)|] == entries[k].response
  {
    FindExact(caches, name);
    SelectedAre(o, EntriesOf(caches, name), wanted, options);
    hide Places, Asks, Wanted;
  }

  lemma KeysExact(o: Oracle, caches: seq<NamedCache>, name: seq<nat>, wanted: Option<Request>, options: Options)
    ensures var r := Answer(o, caches, Keys(name, wanted, options));
      && r.Requests?
      && (!Named(caches, name) ==> r.requests == [])
      && forall i: nat :: FirstNamed(caches, name, i) ==>
        var entries := caches[i].entries;
        var asks := Asks(o, wanted, options);
        && |r.requests| == |Places(entries, asks)|
        && forall k :: k in Places(entries, asks) ==>
          |Places(entries[..k], asks)| < |r.requests|
          && r.requests[|Places(entries[..k], asks)|] == entries[k].request
  {
    FindExact(caches, name);
    SelectedAre(o, EntriesOf(caches, name), wanted, options);
    hide Places, Asks, Wanted;
  }

  // ---------- Edits ----------

  /** Opening adds an empty cache at the end unless there is one of this name, or the name is too long. */
  lemma OpenExact(o: Oracle, caches: seq<NamedCache>, name: seq<nat>)
    ensures Edit(o, caches, Open(name)) ==
      if |name| > 1024 then Err(Quota)
      else if Named(caches, name) then Ok((Nothing, false, caches))
      else Ok((Nothing, true, caches + [NamedCache(name, [])]))
  {
    FindExact(caches, name);
  }

  /** Deleting a cache takes out every cache of this name and no other, and tells whether there was one. */
  lemma DeleteCacheExact(o: Oracle, caches: seq<NamedCache>, name: seq<nat>)
    ensures var r := Edit(o, caches, DeleteCache(name));
      && r.Ok? && r.value.0 == Truth(Named(caches, name)) && r.value.1 == Named(caches, name)
      && (forall c :: c in r.value.2 <==> c in caches && c.name != name)
      && r.value.2 == Filter(caches, Others(name))
  {
    var kept := Filter(caches, OtherName(name));
    FilterAgree(caches, OtherName(name), Others(name));
    forall c ensures c in kept <==> c in caches && c.name != name {
      FilterIn(caches, OtherName(name), c);
    }
    if Named(caches, name) {
      var i :| 0 <= i < |caches| && caches[i].name == name;
      KeptWhole(caches, OtherName(name));
      FilterIn(caches, OtherName(name), caches[i]);
    } else {
      FilterAll(caches, OtherName(name));
    }
  }

  function Others(name: seq<nat>): NamedCache -> bool {
    (c: NamedCache) => c.name != name
  }

  /** Deleting an entry leaves in the named cache exactly the entries the request does not match, in order. */
  lemma DeleteEntryExact(o: Oracle, caches: seq<NamedCache>, name: seq<nat>, request: Request, options: Options)
    ensures var r := Edit(o, caches, DeleteEntry(name, request, options));
      && r.Ok?
      && (!Named(caches, name) ==> r.value == (Truth(false), false, caches))
      && forall i: nat :: FirstNamed(caches, name, i) ==>
        var entries := caches[i].entries;
        var some := exists k :: 0 <= k < |entries| && o.matches(request, entries[k], options);
        r.value == (Truth(some), some, caches[i := NamedCache(name, Filter(entries, Misses(o, request, options)))])
  {
    FindExact(caches, name);
    if Named(caches, name) {
      var entries := EntriesOf(caches, name);
      FilterAgree(entries, Unmatched(o, request, options), Misses(o, request, options));
      SomeMatched(o, entries, request, options);
    }
    hide Filter, Named;
  }

  lemma SomeMatched(o: Oracle, entries: seq<Entry>, request: Request, options: Options)
    ensures |Filter(entries, Unmatched(o, request, options))| != |entries| <==>
      exists k :: 0 <= k < |entries| && o.matches(request, entries[k], options)
  {
    var keep := Unmatched(o, request, options);
    if k :| 0 <= k < |entries| && o.matches(request, entries[k], options) {
      KeptWhole(entries, keep);
      FilterIn(entries, keep, entries[k]);
    } else {
      FilterAll(entries, keep);
    }
  }

  /** The first entry of a batch that is not acceptable. */
  ghost predicate FirstRefused(o: Oracle, batch: seq<Entry>, k: nat) {
    k < |batch| && o.check(batch[k]).Some? && forall j :: 0 <= j < k ==> o.check(batch[j]).None?
  }

  /** Some entry is asked for by the request of a later one. */
  ghost predicate AskedAgain(o: Oracle, batch: seq<Entry>) {
    exists j, k :: 0 <= j < k < |batch| && o.matches(batch[k].request, batch[j], Options(false, false, false))
  }

  /**
    * Putting entries: the name must be short enough, every entry acceptable, no entry asked for by a
    * later one, and the cache there; then it holds what none of them asks for, and the batch behind it.
    */
  lemma PutExact(o: Oracle, caches: seq<NamedCache>, name: seq<nat>, batch: seq<Entry>)
    ensures var r := Edit(o, caches, Put(name, batch));
      var refused := exists k :: 0 <= k < |batch| && o.check(batch[k]).Some?;
      var repeats := AskedAgain(o, batch);
      && (|name| > 1024 ==> r == Err(Quota))
      && (|name| <= 1024 && batch == [] ==> r == Ok((Nothing, false, caches)))
      && (|name| <= 1024 && batch != [] ==>
           && (forall k: nat :: FirstRefused(o, batch, k) ==> r == Err(o.check(batch[k]).value))
           && (!refused && repeats ==> r == Err(Duplicate))
           && (!refused && !repeats && !Named(caches, name) ==> r == Err(InvalidRequest))
           && (!refused && !repeats ==>
                forall i: nat :: FirstNamed(caches, name, i) ==>
                  r == Ok((Nothing, true,
                           caches[i := NamedCache(name, Filter(caches[i].entries, MissesAll(o, batch)) + batch)]))))
  {
    FindExact(caches, name);
    forall k: nat | FirstRefused(o, batch, k)
      ensures FirstRefusal(o, batch) == o.check(batch[k])
    {
      RefusalIs(o, batch, k);
    }
    forall i: nat | FirstNamed(caches, name, i)
      ensures Stored(o, caches[i].entries, batch) == Filter(caches[i].entries, MissesAll(o, batch)) + batch
    {
      FilterAgree(caches[i].entries, NoneMatch(o, batch), MissesAll(o, batch));
    }
    hide Stored, Filter, MissesAll;
  }

  lemma {:induction false} RefusalIs(o: Oracle, batch: seq<Entry>, k: nat)
    requires FirstRefused(o, batch, k)
    ensures FirstRefusal(o, batch) == o.check(batch[k])
    decreases k
  {
    if k > 0 {
      assert o.check(batch[0]).None?;
      forall j | 0 <= j < k - 1 ensures o.check(batch[1..][j]).None? {
        assert batch[1..][j] == batch[j + 1];
      }
      RefusalIs(o, batch[1..], k - 1);
    }
  }
}
