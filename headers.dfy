/**
 * The two header filters of `proxy_request`, both dict comprehensions over
 * `headers.items()` that drop a fixed list of names compared after `lower()`:
 * the outbound request loses `host` and `authorization`, the relayed buffered
 * response loses the hop-by-hop framing headers.
 */
module HeaderFilter {
  import opened Wrappers
  import opened PyStr
  import opened OrderedDict
  import opened Http

  /** Names never forwarded to the backend: its own host and the proxy's credential. */
  const RequestExcluded: seq<string> := ["host", "authorization"]

  /** Names never relayed back: the framing of the backend's body no longer applies. */
  const ResponseExcluded: seq<string> := ["content-encoding", "content-length", "transfer-encoding", "connection"]

  /** `key.lower() in excluded`. */
  predicate Excluded(name: string, excluded: seq<string>) {
    Lower(name) in excluded
  }

  /** Matching ignores letter case: a name and its lower-case form are excluded alike. */
  lemma ExcludedIgnoresCase(name: string, excluded: seq<string>)
    ensures Excluded(name, excluded) <==> Excluded(Lower(name), excluded)
  {
    LowerIdempotent(name);
  }

  /** The items the comprehension's condition keeps, in order. */
  function Kept(items: Headers, excluded: seq<string>): (r: Headers)
    ensures forall p :: p in r ==> p in items && !Excluded(p.0, excluded)
    decreases |items|
  {
    if |items| == 0 then []
    else
      var prior := Kept(items[..|items| - 1], excluded);
      var last := items[|items| - 1];
      if Excluded(last.0, excluded) then prior else prior + [last]
  }

  /** The last kept value of a name is its last value overall, unless the name is excluded. */
  lemma {:induction false} KeptLastValue(items: Headers, excluded: seq<string>, name: string)
    ensures LastValue(Kept(items, excluded), name) ==
      if Excluded(name, excluded) then None else LastValue(items, name)
    decreases |items|
  {
    if |items| > 0 {
      var prefix, last := items[..|items| - 1], items[|items| - 1];
      KeptLastValue(prefix, excluded, name);
      var prior := Kept(prefix, excluded);
      if !Excluded(last.0, excluded) {
        assert (prior + [last])[..|prior|] == prior;
      }
    }
  }

  /** Keeping some items of a list with distinct names keeps the names distinct. */
  lemma {:induction false} KeptDistinct(items: Headers, excluded: seq<string>)
    requires DistinctKeys(items)
    ensures DistinctKeys(Kept(items, excluded))
    decreases |items|
  {
    if |items| > 0 {
      var prefix, last := items[..|items| - 1], items[|items| - 1];
      assert DistinctKeys(prefix);
      KeptDistinct(prefix, excluded);
      var prior := Kept(prefix, excluded);
      forall i | 0 <= i < |prior| ensures prior[i].0 != last.0 {
        assert prior[i] in prefix;
      }
    }
  }

  /** The lookups, the names and the shape of the filtered dict. */
  lemma FilterSpec(items: Headers, excluded: seq<string>)
    ensures var r := FromPairs(Kept(items, excluded));
      && (forall name :: Get(r, name) == if Excluded(name, excluded) then None else LastValue(items, name))
      && (forall i :: 0 <= i < |r| ==> !Excluded(r[i].0, excluded))
  {
    var r := FromPairs(Kept(items, excluded));
    forall name ensures Get(r, name) == if Excluded(name, excluded) then None else LastValue(items, name) {
      FromPairsGet(Kept(items, excluded), name);
      KeptLastValue(items, excluded, name);
    }
    forall i | 0 <= i < |r| ensures !Excluded(r[i].0, excluded) {
      GetAt(r, i);
    }
  }

  /**
   * `{k: v for k, v in items if k.lower() not in excluded}`: an excluded name,
   * in any letter case, is absent; every other name that occurs is present with
   * its LAST value (a dict keeps one value per key); the names are distinct.
   */
  function FilterHeaders(items: Headers, excluded: seq<string>): (r: Dict<string>)
    ensures DistinctKeys(r)
    ensures forall name :: Get(r, name) == if Excluded(name, excluded) then None else LastValue(items, name)
    ensures forall i :: 0 <= i < |r| ==> !Excluded(r[i].0, excluded)
  {
    FilterSpec(items, excluded);
    FromPairs(Kept(items, excluded))
  }

  /** When no name repeats, the filter keeps the surviving items exactly, in order and with their values. */
  lemma FilterPreservesDistinct(items: Headers, excluded: seq<string>)
    requires DistinctKeys(items)
    ensures FilterHeaders(items, excluded) == Kept(items, excluded)
  {
    KeptDistinct(items, excluded);
    FromPairsDistinct(Kept(items, excluded));
  }

  /** When nothing is excluded and no name repeats, the filter changes nothing. */
  lemma FilterIdentity(items: Headers, excluded: seq<string>)
    requires DistinctKeys(items)
    requires forall i :: 0 <= i < |items| ==> !Excluded(items[i].0, excluded)
    ensures FilterHeaders(items, excluded) == items
  {
    KeptAll(items, excluded);
    FilterPreservesDistinct(items, excluded);
  }

  /** The condition keeps every item when it excludes none. */
  lemma {:induction false} KeptAll(items: Headers, excluded: seq<string>)
    requires forall i :: 0 <= i < |items| ==> !Excluded(items[i].0, excluded)
    ensures Kept(items, excluded) == items
    decreases |items|
  {
    if |items| > 0 {
      KeptAll(items[..|items| - 1], excluded);
    }
  }

  /** The headers sent to the backend (main.py request side). */
  function OutboundHeaders(items: Headers): (r: Dict<string>)
    ensures forall i :: 0 <= i < |r| ==> Lower(r[i].0) != "host" && Lower(r[i].0) != "authorization"
    ensures forall name :: Lower(name) != "host" && Lower(name) != "authorization" ==>
      Get(r, name) == LastValue(items, name)
  {
    FilterHeaders(items, RequestExcluded)
  }

  /** The headers relayed with a buffered response. */
  function ResponseHeaders(items: Headers): (r: Dict<string>)
    ensures forall i :: 0 <= i < |r| ==> Lower(r[i].0) !in ResponseExcluded
    ensures forall name :: Lower(name) !in ResponseExcluded ==> Get(r, name) == LastValue(items, name)
  {
    FilterHeaders(items, ResponseExcluded)
  }

  /** The proxy's own credential header is dropped whatever its letter case. */
  lemma CredentialNeverForwarded(items: Headers, name: string, value: string)
    requires Lower(name) == "authorization"
    ensures Get(OutboundHeaders(items + [(name, value)]), name) == None
  {
  }
}
