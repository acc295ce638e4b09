/**
 * The backend registry: the `OLLAMA_INSTANCES` string parsed into an
 * insertion-ordered name -> base URL dict, the default backend chosen from it,
 * and lookup by instance name with fallback to the default.
 */
module Registry {
  import opened Wrappers
  import opened PyStr
  import opened OrderedDict

  /** The default backend used when the configuration yields no entry at all. */
  const FallbackBackend := "http://localhost:11434"

  /**
   * One comma-separated entry, stripped and split on ':' as the parsing loop
   * does: `name:host:port` binds `name` to `http://host:port`, `name:port`
   * binds it to `http://localhost:port`, and any other part count binds nothing.
   */
  function ParseEntry(entry: string): (r: Option<(string, string)>)
    ensures r.Some? ==> ':' !in r.value.0 && |r.value.1| >= 7 && r.value.1[..7] == "http://"
  {
    var parts := Split(Strip(entry), ':');
    if |parts| == 3 then Some((parts[0], "http://" + parts[1] + ":" + parts[2]))
    else if |parts| == 2 then Some((parts[0], "http://localhost:" + parts[1]))
    else None
  }

  /** The bindings the well-formed entries produce, in configuration order (duplicates kept). */
  function ValidEntries(entries: seq<string>): seq<(string, string)>
    decreases |entries|
  {
    if |entries| == 0 then []
    else
      var prior := ValidEntries(entries[..|entries| - 1]);
      match ParseEntry(entries[|entries| - 1])
      case Some(binding) => prior + [binding]
      case None => prior
  }

  /** An entry that binds something adds its binding after those of the entries before it. */
  lemma ValidEntriesSnoc(entries: seq<string>, entry: string, binding: (string, string))
    requires ParseEntry(entry) == Some(binding)
    ensures ValidEntries(entries + [entry]) == ValidEntries(entries) + [binding]
  {
    assert (entries + [entry])[..|entries|] == entries;
  }

  /** The bindings a configuration string produces, in configuration order. */
  function Bindings(config: string): seq<(string, string)> {
    ValidEntries(Split(config, ','))
  }

  /** The registry a configuration string describes: its bindings assigned into `{}` in order. */
  function Parsed(config: string): Dict<string> {
    FromPairs(Bindings(config))
  }

  /**
   * `parse_ollama_instances`: walk the comma-separated entries and assign each
   * well-formed one into the dict, a later entry overwriting an earlier one of
   * the same name in place.
   */
  method ParseInstances(config: string) returns (instances: Dict<string>)
    ensures instances == Parsed(config)
    ensures DistinctKeys(instances)
  {
    instances := [];
    var entries := Split(config, ',');
    for n := 0 to |entries|
      invariant instances == FromPairs(ValidEntries(entries[..n]))
    {
      assert entries[..n + 1][..n] == entries[..n];
      var parts := Split(Strip(entries[n]), ':');
      if |parts| == 3 {
        var name, host, port := parts[0], parts[1], parts[2];
        FromPairsSnoc(ValidEntries(entries[..n]), name, "http://" + host + ":" + port);
        instances := Put(instances, name, "http://" + host + ":" + port);
      } else if |parts| == 2 {
        var name, port := parts[0], parts[1];
        FromPairsSnoc(ValidEntries(entries[..n]), name, "http://localhost:" + port);
        instances := Put(instances, name, "http://localhost:" + port);
      }
    }
    assert entries[..|entries|] == entries;
  }

  /** `DEFAULT_BACKEND`: the first value in insertion order, or the fallback for an empty dict. */
  function DefaultBackend(backends: Dict<string>): (url: string)
    ensures backends == [] ==> url == FallbackBackend
    ensures backends != [] ==> Get(backends, backends[0].0) == Some(url)
  {
    if |backends| > 0 then backends[0].1 else FallbackBackend
  }

  /** Looking a name up in the parsed registry finds the URL of the LAST entry with that name. */
  lemma ParsedLookup(config: string, name: string)
    ensures Get(Parsed(config), name) == LastValue(Bindings(config), name)
  {
    FromPairsGet(Bindings(config), name);
  }

  /**
   * The default backend is the URL currently stored under the first name in
   * the configuration (a later duplicate of that name overwrites it), and the
   * fallback when no entry is well-formed.
   */
  lemma DefaultBackendOfParsed(config: string)
    ensures Bindings(config) == [] ==> DefaultBackend(Parsed(config)) == FallbackBackend
    ensures Bindings(config) != [] ==>
      Some(DefaultBackend(Parsed(config))) == LastValue(Bindings(config), Bindings(config)[0].0)
  {
    var ps := Bindings(config);
    if ps != [] {
      FromPairsFirstKey(ps);
      GetAt(FromPairs(ps), 0);
      FromPairsGet(ps, ps[0].0);
    }
  }

  /**
   * `get_backend_url`: a non-empty known name selects its URL; an absent,
   * empty or unknown name selects the default.
   */
  function GetBackendUrl(backends: Dict<string>, defaultBackend: string, instanceName: Option<string>): (url: string)
    ensures instanceName.Some? && instanceName.value != "" && instanceName.value in Keys(backends) ==>
      Get(backends, instanceName.value) == Some(url)
    ensures instanceName.None? || instanceName.value == "" || instanceName.value !in Keys(backends) ==>
      url == defaultBackend
  {
    if instanceName.Some? && instanceName.value != "" && Get(backends, instanceName.value).Some?
    then Get(backends, instanceName.value).value
    else defaultBackend
  }

  // ---------------------------------------------------------------------------
  // Configuration strings written from endpoint descriptions, and parsed back.
  // ---------------------------------------------------------------------------

  /** One backend as a configuration entry describes it; `host == None` is the `name:port` form. */
  datatype Endpoint = Endpoint(name: string, host: Option<string>, port: string)

  /** The entry text for an endpoint. */
  function Render(e: Endpoint): string {
    match e.host
    case Some(h) => e.name + ":" + h + ":" + e.port
    case None => e.name + ":" + e.port
  }

  /** The base URL an endpoint stands for. */
  function Url(e: Endpoint): string {
    "http://" + e.host.GetOr("localhost") + ":" + e.port
  }

  /** No field holds a separator, and the entry does not begin or end with whitespace. */
  predicate WellFormed(e: Endpoint) {
    && ':' !in e.name && ',' !in e.name
    && ':' !in e.port && ',' !in e.port
    && (e.host.Some? ==> ':' !in e.host.value && ',' !in e.host.value)
    && (e.name == [] || !IsSpace(e.name[0]))
    && (e.port == [] || !IsSpace(e.port[|e.port| - 1]))
  }

  /** The entry texts of a list of endpoints. */
  function RenderAll(es: seq<Endpoint>): seq<string> {
    seq(|es|, i requires 0 <= i < |es| => Render(es[i]))
  }

  /** The configuration string for a list of endpoints: their entries joined by commas. */
  function RenderConfig(es: seq<Endpoint>): string {
    Join(RenderAll(es), ',')
  }

  /** The (name, URL) bindings a list of endpoints stands for. */
  function EndpointBindings(es: seq<Endpoint>): seq<(string, string)> {
    seq(|es|, i requires 0 <= i < |es| => (es[i].name, Url(es[i])))
  }

  /** Render text is never empty, and begins and ends without whitespace. */
  lemma RenderEdges(e: Endpoint)
    requires WellFormed(e)
    ensures Render(e) != [] && !IsSpace(Render(e)[0]) && !IsSpace(Render(e)[|Render(e)| - 1])
    ensures Strip(Render(e)) == Render(e)
  {
    var s := Render(e);
    assert s[0] == if e.name == [] then ':' else e.name[0];
    assert s[|s| - 1] == if e.port == [] then ':' else e.port[|e.port| - 1];
    StripUnchanged(s);
  }

  /** The parse of an entry is decided by the pieces of its stripped text. */
  lemma ParseEntryFromParts(entry: string, parts: seq<string>)
    requires Split(Strip(entry), ':') == parts
    ensures |parts| == 3 ==> ParseEntry(entry) == Some((parts[0], "http://" + parts[1] + ":" + parts[2]))
    ensures |parts| == 2 ==> ParseEntry(entry) == Some((parts[0], "http://localhost:" + parts[1]))
    ensures |parts| != 2 && |parts| != 3 ==> ParseEntry(entry) == None
  {
  }

  /** A well-formed `name:host:port` entry splits into its three fields. */
  lemma SplitHostEntry(e: Endpoint)
    requires WellFormed(e) && e.host.Some?
    ensures Split(Strip(Render(e)), ':') == [e.name, e.host.value, e.port]
  {
    RenderEdges(e);
    var h := e.host.value;
    assert Join([h, e.port], ':') == h + [':'] + e.port;
    assert Render(e) == Join([e.name, h, e.port], ':');
    JoinThenSplit([e.name, h, e.port], ':');
  }

  /** A well-formed `name:port` entry splits into its two fields. */
  lemma SplitPortEntry(e: Endpoint)
    requires WellFormed(e) && e.host.None?
    ensures Split(Strip(Render(e)), ':') == [e.name, e.port]
  {
    RenderEdges(e);
    assert Render(e) == Join([e.name, e.port], ':');
    JoinThenSplit([e.name, e.port], ':');
  }

  /** A well-formed `name:host:port` entry parses back to `http://host:port`. */
  lemma ParseRenderedHostEntry(e: Endpoint)
    requires WellFormed(e) && e.host.Some?
    ensures ParseEntry(Render(e)) == Some((e.name, "http://" + e.host.value + ":" + e.port))
  {
    SplitHostEntry(e);
    ParseEntryFromParts(Render(e), [e.name, e.host.value, e.port]);
  }

  /** A well-formed `name:port` entry parses back to `http://localhost:port`. */
  lemma ParseRenderedPortEntry(e: Endpoint)
    requires WellFormed(e) && e.host.None?
    ensures ParseEntry(Render(e)) == Some((e.name, "http://localhost:" + e.port))
  {
    SplitPortEntry(e);
    ParseEntryFromParts(Render(e), [e.name, e.port]);
  }

  /** An endpoint without a host stands for localhost. */
  lemma LocalhostUrl(e: Endpoint)
    requires e.host.None?
    ensures Url(e) == "http://localhost:" + e.port
  {
  }

  /** A well-formed entry parses back to its endpoint's binding, in both forms. */
  lemma ParseRenderedEntry(e: Endpoint)
    requires WellFormed(e)
    ensures ParseEntry(Render(e)) == Some((e.name, Url(e)))
  {
    if e.host.Some? {
      ParseRenderedHostEntry(e);
    } else {
      ParseRenderedPortEntry(e);
      LocalhostUrl(e);
    }
  }

  /** Whitespace around an entry never changes what it binds. */
  lemma ParseEntryStripped(entry: string)
    ensures ParseEntry(Strip(entry)) == ParseEntry(entry)
  {
    StripIdempotent(entry);
  }

  /** A well-formed entry padded with whitespace on either side still binds its endpoint. */
  lemma ParsePaddedEntry(lead: string, e: Endpoint, trail: string)
    requires AllSpace(lead) && AllSpace(trail) && WellFormed(e)
    ensures ParseEntry(lead + Render(e) + trail) == Some((e.name, Url(e)))
  {
    RenderEdges(e);
    PaddedParse(lead, Render(e), trail);
    ParseRenderedEntry(e);
  }

  /** Padding around text with non-blank edges does not change its parse. */
  lemma PaddedParse(lead: string, s: string, trail: string)
    requires AllSpace(lead) && AllSpace(trail)
    requires s != [] && !IsSpace(s[0]) && !IsSpace(s[|s| - 1])
    ensures ParseEntry(lead + s + trail) == ParseEntry(s)
  {
    StripPadded(lead, s, trail);
    ParseEntryStripped(lead + s + trail);
  }

  /**
   * An entry whose stripped text has a part count other than two or three
   * binds nothing, whatever whitespace surrounds it.
   */
  lemma MalformedEntrySkipped(entry: string, parts: seq<string>)
    requires |parts| >= 1 && |parts| != 2 && |parts| != 3
    requires forall i :: 0 <= i < |parts| ==> ':' !in parts[i]
    requires Strip(entry) == Join(parts, ':')
    ensures ParseEntry(entry) == None
  {
    JoinThenSplit(parts, ':');
    ParseEntryFromParts(entry, parts);
  }

  /** Well-formed entries produce their endpoints' bindings, in order. */
  lemma {:induction false} ValidEntriesRendered(es: seq<Endpoint>)
    requires forall i :: 0 <= i < |es| ==> WellFormed(es[i])
    ensures ValidEntries(RenderAll(es)) == EndpointBindings(es)
    decreases |es|
  {
    if |es| > 0 {
      var n := |es| - 1;
      var e := es[n];
      RenderedSnoc(es);
      ValidEntriesRendered(es[..n]);
      ParseRenderedEntry(e);
      ValidEntriesSnoc(RenderAll(es[..n]), Render(e), (e.name, Url(e)));
    }
  }

  /** The rendered entries and the bindings of a list, one endpoint at a time. */
  lemma RenderedSnoc(es: seq<Endpoint>)
    requires |es| > 0
    ensures RenderAll(es) == RenderAll(es[..|es| - 1]) + [Render(es[|es| - 1])]
    ensures EndpointBindings(es) ==
      EndpointBindings(es[..|es| - 1]) + [(es[|es| - 1].name, Url(es[|es| - 1]))]
  {
  }

  /**
   * Parsing a configuration written from well-formed endpoints gives the dict
   * their bindings build: the parser inverts the configuration format.
   */
  lemma ParseRendered(es: seq<Endpoint>)
    requires forall i :: 0 <= i < |es| ==> WellFormed(es[i])
    ensures Parsed(RenderConfig(es)) == FromPairs(EndpointBindings(es))
  {
    if |es| == 0 {
      assert Split("", ',') == [""];
      assert Strip("") == "";
      assert Split("", ':') == [""];
      assert ValidEntries([""]) == [];
      assert EndpointBindings(es) == [];
    } else {
      var entries := RenderAll(es);
      forall i | 0 <= i < |entries| ensures ',' !in entries[i] {
        assert entries[i] == Render(es[i]);
      }
      JoinThenSplit(entries, ',');
      ValidEntriesRendered(es);
    }
  }

  /** A list of one endpoint is written as its entry alone, and parses to its binding. */
  lemma ParseSingleEntry(e: Endpoint)
    requires WellFormed(e)
    ensures Parsed(Render(e)) == [(e.name, Url(e))]
  {
    var es := [e];
    assert RenderAll(es) == [Render(e)];
    ParseRendered(es);
    assert EndpointBindings(es) == [(e.name, Url(e))];
  }

  /** Two endpoints are written as their entries separated by one comma. */
  lemma RenderPair(ea: Endpoint, eb: Endpoint)
    ensures RenderConfig([ea, eb]) == Render(ea) + "," + Render(eb)
  {
    var rs := RenderAll([ea, eb]);
    assert rs == [Render(ea), Render(eb)];
    assert Join(rs, ',') == rs[0] + [','] + Join(rs[1..], ',');
  }

  /** Two differently named endpoints build a dict holding both, in order. */
  lemma BindingsPair(ea: Endpoint, eb: Endpoint)
    requires ea.name != eb.name
    ensures FromPairs(EndpointBindings([ea, eb])) == [(ea.name, Url(ea)), (eb.name, Url(eb))]
  {
    var bs := EndpointBindings([ea, eb]);
    assert bs == [(ea.name, Url(ea)), (eb.name, Url(eb))];
    FromPairsDistinct(bs);
  }

  /** A two-entry configuration with different names parses to both backends, in order. */
  lemma ParseTwoEntries(ea: Endpoint, eb: Endpoint)
    requires WellFormed(ea) && WellFormed(eb) && ea.name != eb.name
    ensures Parsed(Render(ea) + "," + Render(eb)) == [(ea.name, Url(ea)), (eb.name, Url(eb))]
  {
    var es := [ea, eb];
    assert forall i :: 0 <= i < |es| ==> WellFormed(es[i]);
    ParseRendered(es);
    RenderPair(ea, eb);
    BindingsPair(ea, eb);
  }
}
