/** Chains of stateless forwarders (yamp/stateless.py, yamp/version.py). A site is
    an end server or a forwarder in front of further sites. */
module StatelessChain {
  import opened Basics
  import opened Json
  import opened Namespace

  const CLIENT_INFO_META_KEY := "io.modelcontextprotocol/clientInfo"

  const PROTOCOL_VERSION_META_KEY := "io.modelcontextprotocol/protocolVersion"

  const STATELESS_PROTOCOL_VERSION := "2026-07-28"

  const SUPPORTED_PROTOCOL_VERSIONS: seq<string> := ["2026-07-28", "2025-06-18"]

  datatype Site =
    | Leaf(server: string, tools: seq<string>)
    | Forwarder(info: Json, backends: seq<Backend>)

  datatype Backend = Backend(id: string, site: Site)

  datatype Request = Request(name: Option<string>, meta: Object, body: string)

  /** What became of a `tools/call`: the ids it went through, the end server it
      reached and the request that server received, or the rejection. */
  datatype Outcome =
    | Delivered(path: seq<string>, server: string, received: Request)
    | UnsupportedVersion
    | UnknownTool(name: Option<string>)

  /** One listed tool: its exposed name and where it comes from. */
  datatype Listed = Listed(name: string, path: seq<string>, server: string, original: string)

  function Negotiate(meta: Object): Option<Json> {
    match Get(meta, PROTOCOL_VERSION_META_KEY)
    case None => Some(Str(STATELESS_PROTOCOL_VERSION))
    case Some(Null) => Some(Str(STATELESS_PROTOCOL_VERSION))
    case Some(Str(v)) => if v in SUPPORTED_PROTOCOL_VERSIONS then Some(Str(v)) else None
    case Some(_) => None
  }

  function FindBackend(backends: seq<Backend>, id: string): (r: Option<nat>)
    ensures r.Some? <==> exists i :: 0 <= i < |backends| && backends[i].id == id
    ensures r.Some? ==> r.value < |backends| && backends[r.value].id == id
  {
    if backends == [] then None
    else if backends[0].id == id then Some(0)
    else match FindBackend(backends[1..], id)
         case None => None
         case Some(i) => Some(i + 1)
  }

  function ForwardedMeta(meta: Object, info: Json, negotiated: Json): Object {
    meta[CLIENT_INFO_META_KEY := info][PROTOCOL_VERSION_META_KEY := negotiated]
  }

  function Call(site: Site, request: Request): Outcome
    decreases site
  {
    match site
    case Leaf(server, _) => Delivered([], server, request)
    case Forwarder(info, backends) =>
      match Negotiate(request.meta)
      case None => UnsupportedVersion
      case Some(negotiated) =>
        match Split(if request.name.Some? then request.name.value else "")
        case None => UnknownTool(request.name)
        case Some((id, original)) =>
          match FindBackend(backends, id)
          case None => UnknownTool(request.name)
          case Some(i) =>
            var forwarded := Request(Some(original), ForwardedMeta(request.meta, info, negotiated), request.body);
            match Call(backends[i].site, forwarded)
            case Delivered(path, server, received) => Delivered([id] + path, server, received)
            case UnsupportedVersion => UnsupportedVersion
            case UnknownTool(name) => UnknownTool(name)
  }

  function Relabel(id: string, tools: seq<Listed>): (r: seq<Listed>)
    ensures |r| == |tools|
    ensures forall i :: 0 <= i < |tools| ==>
      r[i] == tools[i].(name := Prefix(id, tools[i].name), path := [id] + tools[i].path)
  {
    seq(|tools|, i requires 0 <= i < |tools| =>
      tools[i].(name := Prefix(id, tools[i].name), path := [id] + tools[i].path))
  }

  /** The tools a site lists, each with its origin. */
  function Surface(site: Site): seq<Listed>
    decreases site
  {
    match site
    case Leaf(server, tools) => seq(|tools|, i requires 0 <= i < |tools| => Listed(tools[i], [], server, tools[i]))
    case Forwarder(_, backends) => SurfaceOf(backends)
  }

  function SurfaceOf(backends: seq<Backend>): seq<Listed>
    decreases backends
  {
    if backends == [] then []
    else
      var first := backends[0];
      Relabel(first.id, Surface(first.site)) + SurfaceOf(backends[1..])
  }

  /** The names of some listed tools, in order. */
  predicate AreNames(names: seq<string>, tools: seq<Listed>) {
    |names| == |tools| && forall i :: 0 <= i < |tools| ==> names[i] == tools[i].name
  }

  /** Append one backend's tools, under its id, to those collected so far. */
  method AppendPrefixed(names: seq<string>, id: string, listed: seq<string>) returns (r: seq<string>)
    ensures |r| == |names| + |listed| && r[..|names|] == names
    ensures forall k :: 0 <= k < |listed| ==> r[|names| + k] == Prefix(id, listed[k])
  {
    r := names;
    for k := 0 to |listed|
      invariant |r| == |names| + k && r[..|names|] == names
      invariant forall j :: 0 <= j < k ==> r[|names| + j] == Prefix(id, listed[j])
    {
      r := r + [Prefix(id, listed[k])];
    }
  }

  lemma {:induction false} SurfaceOfConcat(a: seq<Backend>, b: seq<Backend>)
    ensures SurfaceOf(a + b) == SurfaceOf(a) + SurfaceOf(b)
  {
    if a == [] {
      assert a + b == b;
    } else {
      assert (a + b)[1..] == a[1..] + b;
      SurfaceOfConcat(a[1..], b);
    }
  }

  /** Discovery lists every tool of every backend once, backend after backend, each
      under the backend's id. */
  lemma DiscoveryIsComplete(before: seq<Backend>, backend: Backend, after: seq<Backend>)
    ensures var all, own, from := SurfaceOf(before + [backend] + after), Surface(backend.site), |SurfaceOf(before)|;
            && |all| == from + |own| + |SurfaceOf(after)|
            && all[..from] == SurfaceOf(before)
            && all[from + |own|..] == SurfaceOf(after)
            && forall k :: 0 <= k < |own| ==>
                 all[from + k] ==
                 Listed(Prefix(backend.id, own[k].name), [backend.id] + own[k].path, own[k].server, own[k].original)
  {
    hide Surface, Prefix;
    SurfaceOfConcat(before + [backend], after);
    SurfaceOfConcat(before, [backend]);
    assert SurfaceOf([backend]) == Relabel(backend.id, Surface(backend.site));
    hide SurfaceOf;
  }

  /** One turn of the discovery loop. */
  lemma DiscoverStep(backends: seq<Backend>, i: nat, names: seq<string>, listed: seq<string>, names': seq<string>)
    requires i < |backends|
    requires AreNames(names, SurfaceOf(backends[..i])) && AreNames(listed, Surface(backends[i].site))
    requires |names'| == |names| + |listed| && names'[..|names|] == names
    requires forall k :: 0 <= k < |listed| ==> names'[|names| + k] == Prefix(backends[i].id, listed[k])
    ensures AreNames(names', SurfaceOf(backends[..i + 1]))
  {
    hide Surface, Prefix;
    var before, more := SurfaceOf(backends[..i]), Relabel(backends[i].id, Surface(backends[i].site));
    assert backends[..i + 1] == backends[..i] + [backends[i]];
    SurfaceOfConcat(backends[..i], [backends[i]]);
    assert SurfaceOf([backends[i]]) == more;
    hide SurfaceOf;
    var all: seq<Listed> := before + more;
    forall j | 0 <= j < |names'| ensures names'[j] == all[j].name {
      if j < |names| {
        assert names'[j] == names'[..|names|][j];
      } else {
        assert names'[j] == names'[|names| + (j - |names|)];
      }
    }
  }

  /** A leaf lists its own tools; a forwarder lists those of its backends. */
  lemma SurfaceCases(site: Site)
    ensures site.Leaf? ==> AreNames(site.tools, Surface(site))
    ensures site.Forwarder? ==> Surface(site) == SurfaceOf(site.backends)
    ensures site.Forwarder? ==>
            AreNames([], SurfaceOf(site.backends[..0])) && site.backends[..|site.backends|] == site.backends
  {
  }

  /** Server discovery: each forwarder asks its backends in turn and appends their
      tools under the backend's id. */
  method Discover(site: Site) returns (names: seq<string>)
    ensures AreNames(names, Surface(site))
    decreases site
  {
    hide Surface, SurfaceOf, Relabel, AreNames;
    SurfaceCases(site);
    match site
    case Leaf(_, tools) =>
      names := tools;
    case Forwarder(_, backends) =>
      names := [];
      for i := 0 to |backends|
        invariant AreNames(names, SurfaceOf(backends[..i]))
      {
        var listed := Discover(backends[i].site);
        var names' := AppendPrefixed(names, backends[i].id, listed);
        DiscoverStep(backends, i, names, listed, names');
        names := names';
      }
  }

  /** Ids are distinct at every forwarder and routable, and end servers name their
      tools. */
  predicate WellFormed(site: Site)
    decreases site
  {
    match site
    case Leaf(_, tools) => forall i :: 0 <= i < |tools| ==> tools[i] != ""
    case Forwarder(_, backends) =>
      && (forall i :: 0 <= i < |backends| ==> RoutableId(backends[i].id) && WellFormed(backends[i].site))
      && (forall i, j :: 0 <= i < j < |backends| ==> backends[i].id != backends[j].id)
  }

  /** The request the end server sees: its own tool name, the caller's body, and
      the caller's metadata except for the two keys every hop rewrites. */
  ghost predicate ArrivesAs(received: Request, original: string, sent: Request) {
    && received.name == Some(original)
    && received.body == sent.body
    && (forall k :: k !in {CLIENT_INFO_META_KEY, PROTOCOL_VERSION_META_KEY} ==>
          Get(received.meta, k) == Get(sent.meta, k))
    && Negotiate(received.meta) == Negotiate(sent.meta)
  }

  lemma {:induction false} SurfaceOfOrigin(backends: seq<Backend>, i: nat) returns (b: nat, k: nat)
    requires i < |SurfaceOf(backends)|
    ensures b < |backends| && k < |Surface(backends[b].site)|
    ensures SurfaceOf(backends)[i] == Relabel(backends[b].id, Surface(backends[b].site))[k]
  {
    var n := |Surface(backends[0].site)|;
    if i < n {
      b, k := 0, i;
    } else {
      var b', k' := SurfaceOfOrigin(backends[1..], i - n);
      b, k := b' + 1, k';
    }
  }

  lemma {:induction false} ListedNamesNonEmpty(site: Site, i: nat)
    requires WellFormed(site) && i < |Surface(site)|
    ensures Surface(site)[i].name != ""
  {
    if site.Forwarder? {
      var b, k := SurfaceOfOrigin(site.backends, i);
    }
  }

  /** Rewriting the metadata keeps every other key and the negotiated version. */
  lemma ForwardedKeeps(meta: Object, info: Json)
    requires Negotiate(meta).Some?
    ensures var forwarded := ForwardedMeta(meta, info, Negotiate(meta).value);
            && Negotiate(forwarded) == Negotiate(meta)
            && forall k :: k !in {CLIENT_INFO_META_KEY, PROTOCOL_VERSION_META_KEY} ==> Get(forwarded, k) == Get(meta, k)
  {
    assert CLIENT_INFO_META_KEY != PROTOCOL_VERSION_META_KEY;
  }

  /** A forwarder passes a call on to the backend its name splits to. */
  lemma CallGoesDown(site: Site, request: Request, b: nat, original: string)
    requires site.Forwarder? && b < |site.backends| && Negotiate(request.meta).Some? && request.name.Some?
    requires Split(request.name.value) == Some((site.backends[b].id, original))
    requires FindBackend(site.backends, site.backends[b].id) == Some(b)
    ensures var meta := request.meta["io.modelcontextprotocol/clientInfo" := site.info]
                        ["io.modelcontextprotocol/protocolVersion" := Negotiate(request.meta).value];
            var below := Call(site.backends[b].site, Request(Some(original), meta, request.body));
            Call(site, request) ==
              if below.Delivered? then below.(path := [site.backends[b].id] + below.path) else below
  {
    hide Split, Negotiate;
  }

  /** A request without a version is served at the stateless one, and only the two
      supported versions are served as asked. */
  lemma NegotiateMeaning(meta: Object)
    ensures Negotiate(meta) ==
            if Get(meta, "io.modelcontextprotocol/protocolVersion") in [None, Some(Null), Some(Str("2026-07-28"))]
            then Some(Str("2026-07-28"))
            else if Get(meta, "io.modelcontextprotocol/protocolVersion") == Some(Str("2025-06-18"))
            then Some(Str("2025-06-18"))
            else None
  {
  }

  /** A forwarder rejects a call itself exactly when it cannot serve the version, or
      when the name is not some backend's id joined to a name; it says which. */
  lemma CallRejected(site: Site, request: Request)
    requires site.Forwarder?
    ensures Negotiate(request.meta).None? ==> Call(site, request) == UnsupportedVersion
    ensures Negotiate(request.meta).Some? && (forall b, original :: 0 <= b < |site.backends| ==>
              request.name.None? || Split(request.name.value) != Some((site.backends[b].id, original))) ==>
            Call(site, request) == UnknownTool(request.name)
  {
    assert Split("").None?;
  }

  /** Main result: a tool discovered through forwarders nested to any depth is
      routed back to the end server that listed it, along the path it was listed
      by, under its original name and with the body untouched. */
  lemma {:induction false} DiscoveredToolRoutesHome(site: Site, i: nat, request: Request)
    requires WellFormed(site) && i < |Surface(site)|
    requires request.name == Some(Surface(site)[i].name) && Negotiate(request.meta).Some?
    ensures var tool := Surface(site)[i];
            var outcome := Call(site, request);
            && outcome.Delivered?
            && outcome.path == tool.path && outcome.server == tool.server
            && ArrivesAs(outcome.received, tool.original, request)
    decreases site
  {
    if site.Forwarder? {
      var b, k := SurfaceOfOrigin(site.backends, i);
      var below := site.backends[b];
      var tool := Surface(below.site)[k];
      ListedNamesNonEmpty(below.site, k);
      SplitOfPrefix(below.id, tool.name);
      var negotiated := Negotiate(request.meta).value;
      var forwarded := Request(Some(tool.name), ForwardedMeta(request.meta, site.info, negotiated), request.body);
      ForwardedKeeps(request.meta, site.info);
      assert FindBackend(site.backends, below.id) == Some(b);
      CallGoesDown(site, request, b, tool.name);
      hide Call, Negotiate, ForwardedMeta, Split, Prefix, RoutableId;
      DiscoveredToolRoutesHome(below.site, k, forwarded);
    }
  }

  /** Hence equal exposed names are the same tool: no two sites under one forwarder
      clash, at any depth. */
  lemma SurfaceHasNoClash(site: Site, i: nat, j: nat)
    requires WellFormed(site) && i < |Surface(site)| && j < |Surface(site)|
    requires Surface(site)[i].name == Surface(site)[j].name
    ensures Surface(site)[i] == Surface(site)[j]
  {
    var request := Request(Some(Surface(site)[i].name), map[], "");
    assert Negotiate(request.meta).Some?;
    DiscoveredToolRoutesHome(site, i, request);
    DiscoveredToolRoutesHome(site, j, request);
  }
}
