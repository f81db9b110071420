/**
 * CustomizedPathsAPI: the checks post makes on a path request, the source
 * lookup, the conversion of each JSON step into a traverser step, and the
 * dispatch from sort_by to an unsorted walk or a sorted walk cut down by
 * topNPath.
 */
module PathsApi {
  import opened Base
  import opened Nodes
  import opened Traverser
  import opened TopN

  datatype SortBy = INCR | DECR | NONE

  /** The "sources" object of a request; every field may be absent (null). */
  datatype SourceVertices = SourceVertices(
    ids: Option<set<string>>,
    labelName: Option<string>,
    properties: Option<map<string, string>>)

  /** A step as the request body gives it. */
  datatype StepRequest = StepRequest(
    direction: Option<string>,
    labels: Option<seq<string>>,
    properties: map<string, string>,
    weightBy: Option<string>,
    defaultWeight: real,
    degree: int,
    sample: int)

  /** The request body; capacity and limit hold the values after JSON binding. */
  datatype PathRequest = PathRequest(
    sources: Option<SourceVertices>,
    steps: Option<seq<StepRequest>>,
    sortBy: Option<SortBy>,
    capacity: int,
    limit: int)

  /**
   * The graph store as the request layer sees it: vertices by id, vertices
   * by label and properties, edge label ids by name, and the edges the
   * traverser walks.
   */
  datatype Store = Store(
    verticesById: set<string> -> seq<VertexId>,
    verticesByQuery: (Option<string>, map<string, string>) -> seq<VertexId>,
    edgeLabelId: string -> LabelId,
    edges: EdgeOracle)

  /** The request names no source: no ids, no properties (absent or empty) and no label. */
  predicate NoSourceGiven(sv: SourceVertices)
  {
    (sv.ids.None? || sv.ids.value == {})
    && (sv.properties.None? || sv.properties.value == map[])
    && sv.labelName.None?
  }

  /**
   * The vertices a source spec selects: by ids when some are given,
   * otherwise by label and properties; selecting nothing is an error.
   */
  function FetchSources(sv: SourceVertices, store: Store): (r: Result<seq<VertexId>>)
    ensures r.Ok? ==> r.value != []
    ensures r.Err? ==> r.error.IllegalArgument?
  {
    if sv.ids.Some? && sv.ids.value != {} then
      var vs := store.verticesById(sv.ids.value);
      if vs == [] then Err(IllegalArgument("Not exist source vertexes with ids %s")) else Ok(vs)
    else
      var props := if sv.properties.Some? then sv.properties.value else map[];
      var vs := store.verticesByQuery(sv.labelName, props);
      if vs == [] then Err(IllegalArgument("Not exist source vertex with label '%s' and properties '%s'")) else Ok(vs)
  }

  /** sources(g, sources) as written: ids.size() is read before ids is tested for null. */
  function SourcesAsWritten(sv: SourceVertices, store: Store): (r: Result<seq<VertexId>>)
    ensures r == Err(IllegalArgument("No source vertices provided")) <==> NoSourceGiven(sv)
    ensures r.Ok? ==> r.value != []
  {
    if NoSourceGiven(sv) then Err(IllegalArgument("No source vertices provided"))
    else if sv.ids.None? then Err(NullPointer)
    else FetchSources(sv, store)
  }

  /**
   * sources(g, sources) with the null test the rest of the method makes:
   * rejects a spec that names no source, otherwise the selected vertices,
   * never an empty list and never a null dereference.
   */
  function Sources(sv: SourceVertices, store: Store): (r: Result<seq<VertexId>>)
    ensures r == Err(IllegalArgument("No source vertices provided")) <==> NoSourceGiven(sv)
    ensures r.Ok? ==> r.value != []
    ensures r.Err? ==> r.error.IllegalArgument?
  {
    if NoSourceGiven(sv) then Err(IllegalArgument("No source vertices provided")) else FetchSources(sv, store)
  }

  /** The two differ exactly on a spec that gives a label or properties but no ids at all. */
  lemma SourcesAsWrittenDiffers(sv: SourceVertices, store: Store)
    ensures SourcesAsWritten(sv, store) != Sources(sv, store) <==> sv.ids.None? && !NoSourceGiven(sv)
    ensures SourcesAsWritten(sv, store) != Sources(sv, store) ==> SourcesAsWritten(sv, store) == Err(NullPointer)
  {
    if sv.ids.None? && !NoSourceGiven(sv) {
      assert Sources(sv, store).Err? ==> Sources(sv, store).error.IllegalArgument?;
    }
  }

  /** A request for the vertices labelled "person" fails as written with a null dereference. */
  lemma SourcesByLabelOnly(store: Store)
    ensures SourcesAsWritten(SourceVertices(None, Some("person"), None), store) == Err(NullPointer)
    ensures Sources(SourceVertices(None, Some("person"), None), store) == FetchSources(SourceVertices(None, Some("person"), None), store)
  {
    SourcesAsWrittenDiffers(SourceVertices(None, Some("person"), None), store);
  }

  /** The constant name of a direction. */
  function DirectionName(d: Direction): string
  {
    match d
    case OUT => "OUT"
    case IN => "IN"
    case BOTH => "BOTH"
  }

  /** Directions.valueOf(name): the constant of that name; null and unknown names fail. */
  function ParseDirection(name: Option<string>): (r: Result<Direction>)
    ensures name.None? ==> r == Err(NullPointer)
    ensures r.Ok? <==> name.Some? && name.value in {"OUT", "IN", "BOTH"}
    ensures r.Ok? ==> DirectionName(r.value) == name.value
    ensures name.Some? && r.Err? ==>
      r.error == IllegalArgument("No enum constant com.baidu.hugegraph.type.define.Directions." + name.value)
  {
    match name
    case None => Err(NullPointer)
    case Some(n) =>
      if n == "OUT" then Ok(OUT)
      else if n == "IN" then Ok(IN)
      else if n == "BOTH" then Ok(BOTH)
      else Err(IllegalArgument("No enum constant com.baidu.hugegraph.type.define.Directions." + n))
  }

  /** Every direction parses back from its name. */
  lemma ParseDirectionName(d: Direction)
    ensures ParseDirection(Some(DirectionName(d))) == Ok(d)
  {
  }

  /** What jsonToStep accepts. */
  predicate ValidStep(req: StepRequest)
  {
    (req.degree > 0 || req.degree == NO_LIMIT)
    && req.sample >= 0
    && (req.degree == NO_LIMIT || req.degree >= req.sample)
    && ParseDirection(req.direction).Ok?
    && req.labels.Some?
  }

  /** The first failure jsonToStep meets, in the order it checks. */
  function StepError(req: StepRequest): (e: Option<Error>)
    ensures e.None? <==> ValidStep(req)
    ensures !(req.degree > 0 || req.degree == NO_LIMIT) ==>
      e == Some(IllegalArgument("The degree must be > 0 or == -1, but got: %s"))
    ensures (req.degree > 0 || req.degree == NO_LIMIT) && req.sample < 0 ==>
      e == Some(IllegalArgument("The sample must be >= 0, but got: %s"))
    ensures (req.degree > 0 || req.degree == NO_LIMIT) && req.sample >= 0 && req.degree != NO_LIMIT && req.degree < req.sample ==>
      e == Some(IllegalArgument("Degree must be greater than or equal to sample, but got degree %s and sample %s"))
  {
    if !(req.degree > 0 || req.degree == NO_LIMIT) then
      Some(IllegalArgument("The degree must be > 0 or == -1, but got: %s"))
    else if req.sample < 0 then
      Some(IllegalArgument("The sample must be >= 0, but got: %s"))
    else if !(req.degree == NO_LIMIT || req.degree >= req.sample) then
      Some(IllegalArgument("Degree must be greater than or equal to sample, but got degree %s and sample %s"))
    else if ParseDirection(req.direction).Err? then
      Some(ParseDirection(req.direction).error)
    else if req.labels.None? then
      Some(NullPointer)
    else
      None
  }

  /** m maps the id of every listed edge label to a listed name of that id, and holds nothing else. */
  ghost predicate LabelsOf(m: map<LabelId, string>, labels: seq<string>, edgeLabelId: string -> LabelId)
  {
    (forall id :: id in m <==> exists l :: l in labels && edgeLabelId(l) == id)
    && forall id :: id in m ==> m[id] in labels && edgeLabelId(m[id]) == id
  }

  /** step is the traverser step built from req: its fields carried over, its labels resolved. */
  ghost predicate Converted(req: StepRequest, step: Step, edgeLabelId: string -> LabelId)
  {
    ParseDirection(req.direction) == Ok(step.direction)
    && req.labels.Some? && LabelsOf(step.labels, req.labels.value, edgeLabelId)
    && step.properties == req.properties
    && step.weightBy == req.weightBy
    && step.defaultWeight == req.defaultWeight
    && step.degree == req.degree
    && step.sample == req.sample
  }

  /**
   * Step.jsonToStep(graph): the checks in their order, then the labels
   * resolved to edge label ids in a map filled one label at a time.
   */
  method JsonToStep(req: StepRequest, edgeLabelId: string -> LabelId) returns (r: Result<Step>)
    ensures r.Ok? <==> ValidStep(req)
    ensures r.Err? ==> StepError(req) == Some(r.error)
    ensures r.Ok? ==> Converted(req, r.value, edgeLabelId)
  {
    var e := StepError(req);
    if e.Some? {
      return Err(e.value);
    }
    var direction := ParseDirection(req.direction).value;
    var labels := req.labels.value;
    var labelIds: map<LabelId, string> := map[];
    for i := 0 to |labels|
      invariant LabelsOf(labelIds, labels[..i], edgeLabelId)
    {
      var id := edgeLabelId(labels[i]);
      assert labels[..i + 1] == labels[..i] + [labels[i]];
      labelIds := labelIds[id := labels[i]];
    }
    assert labels[..|labels|] == labels;
    r := Ok(Step(direction, labelIds, req.properties, req.weightBy, req.defaultWeight, req.degree, req.sample));
  }

  /** The first request step that jsonToStep rejects is at i. */
  predicate FirstInvalid(requests: seq<StepRequest>, i: int)
  {
    0 <= i < |requests| && !ValidStep(requests[i]) && forall j :: 0 <= j < i ==> ValidStep(requests[j])
  }

  /** step(graph, request): every request step converted in order; the first rejection stops it. */
  method StepsOf(requests: seq<StepRequest>, edgeLabelId: string -> LabelId) returns (r: Result<seq<Step>>)
    ensures r.Ok? <==> forall i :: 0 <= i < |requests| ==> ValidStep(requests[i])
    ensures r.Err? ==> exists i :: FirstInvalid(requests, i) && StepError(requests[i]) == Some(r.error)
    ensures r.Ok? ==>
      |r.value| == |requests| && (forall i :: 0 <= i < |requests| ==> Converted(requests[i], r.value[i], edgeLabelId))
  {
    var steps: seq<Step> := [];
    for i := 0 to |requests|
      invariant |steps| == i
      invariant forall j :: 0 <= j < i ==> ValidStep(requests[j]) && Converted(requests[j], steps[j], edgeLabelId)
    {
      var step := JsonToStep(requests[i], edgeLabelId);
      if step.Err? {
        assert FirstInvalid(requests, i);
        return Err(step.error);
      }
      steps := steps + [step.value];
    }
    r := Ok(steps);
  }

  /**
   * The checks post makes on the body before touching the graph. A null body
   * fails already in the debug log call, which reads request.sources.
   */
  function CheckRequest(request: Option<PathRequest>): (e: Option<Error>)
    ensures e.None? <==> request.Some? && request.value.sources.Some? && request.value.steps.Some?
                         && request.value.steps.value != [] && request.value.sortBy.Some?
    ensures request.None? ==> e == Some(NullPointer)
    ensures request.Some? && request.value.sources.None? ==>
      e == Some(IllegalArgument("The sources of path request can't be null"))
    ensures request.Some? && request.value.sources.Some? && request.value.steps.None? ==> e == Some(NullPointer)
    ensures request.Some? && request.value.sources.Some? && request.value.steps == Some([]) ==>
      e == Some(IllegalArgument("The steps of path request can't be empty"))
  {
    match request
    case None => Some(NullPointer)
    case Some(req) =>
      if req.sources.None? then Some(IllegalArgument("The sources of path request can't be null"))
      else if req.steps.None? then Some(NullPointer)
      else if req.steps.value == [] then Some(IllegalArgument("The steps of path request can't be empty"))
      else if req.sortBy.None? then Some(IllegalArgument("The sortBy of path request can't be null"))
      else None
  }

  /**
   * What customizedPaths promises about the walk Post asks for: steps are the
   * request's steps converted in order, and the paths walked over the sources
   * with the request's sort flag, capacity and limit are sound, complete when
   * nothing bounds or samples the walk, within the limit and capacity, and
   * empty when the capacity runs out on the first of several levels.
   */
  ghost predicate WalkedAsTraversed(req: PathRequest, store: Store, sources: seq<VertexId>,
                                    steps: seq<Step>, walked: seq<Path>)
    requires req.steps.Some? && req.sortBy.Some?
  {
    var sorted := req.sortBy.value != NONE;
    var q := Query(store.edges, sources, steps, sorted);
    |steps| == |req.steps.value|
    && (forall i :: 0 <= i < |steps| ==> Converted(req.steps.value[i], steps[i], store.edgeLabelId))
    && (forall p :: p in walked ==> ValidPath(q, p))
    && (req.capacity == NO_LIMIT && (sorted || req.limit == NO_LIMIT) && NoSampling(steps) ==>
          forall p :: ValidPath(q, p) ==> p in walked)
    && (!sorted && req.limit != NO_LIMIT ==> |walked| <= Max(req.limit, 1))
    && (req.capacity != NO_LIMIT ==> |walked| <= Max(req.capacity - 1, 0))
    && ((|steps| >= 2 && req.capacity != NO_LIMIT
         && FirstLevel(store.edges, sources, steps[0]) >= Max(req.capacity, 1)) ==> walked == [])
  }

  /**
   * post(manager, graph, request): the body checks, the sources, the steps,
   * customizedPaths sorted exactly when sort_by is not NONE, and then
   * topNPath, increasing exactly when sort_by is INCR. The ghost outputs
   * are the steps built and the paths the traverser returned.
   */
  method Post(request: Option<PathRequest>, store: Store)
    returns (r: Result<seq<Path>>, ghost steps: seq<Step>, ghost walked: seq<Path>)
    ensures CheckRequest(request).Some? ==> r == Err(CheckRequest(request).value)
    ensures CheckRequest(request).None? && Sources(request.value.sources.value, store).Err? ==>
      r == Err(Sources(request.value.sources.value, store).error)
    ensures CheckRequest(request).None? && Sources(request.value.sources.value, store).Ok? ==>
      var req := request.value;
      var rs := req.steps.value;
      ((exists i :: FirstInvalid(rs, i)) ==> r.Err? && exists i :: FirstInvalid(rs, i) && StepError(rs[i]) == Some(r.error))
      && ((forall i :: 0 <= i < |rs| ==> ValidStep(rs[i])) ==>
            var k := IntCast(req.limit);
            (r.Err? <==> req.sortBy != Some(NONE) && req.limit < NO_LIMIT && (k < 0 || k > |walked|))
            && (r.Err? && k < 0 ==> r.error == IllegalArgument("fromIndex(%s) > toIndex(%s)"))
            && (r.Err? && k >= 0 ==> r.error == IndexOutOfBounds)
            && WalkedAsTraversed(req, store, Sources(req.sources.value, store).value, steps, walked))
    ensures r.Ok? ==>
      var req := request.value;
      var sorted := req.sortBy.value != NONE;
      |steps| == |req.steps.value|
      && (forall i :: 0 <= i < |steps| ==> Converted(req.steps.value[i], steps[i], store.edgeLabelId))
      && (forall p :: p in walked ==>
            ValidPath(Query(store.edges, Sources(req.sources.value, store).value, steps, sorted), p))
      && (!sorted ==> r.value == walked)
      && (sorted && req.limit >= NO_LIMIT ==> IsTopN(walked, req.sortBy.value == INCR, req.limit, r.value))
      && (sorted && req.limit < NO_LIMIT ==> IsTopK(walked, req.sortBy.value == INCR, IntCast(req.limit), r.value))
  {
    steps, walked := [], [];
    var e := CheckRequest(request);
    if e.Some? {
      return Err(e.value), steps, walked;
    }
    var req := request.value;
    var sources := Sources(req.sources.value, store);
    if sources.Err? {
      return Err(sources.error), steps, walked;
    }
    var converted := StepsOf(req.steps.value, store.edgeLabelId);
    if converted.Err? {
      return Err(converted.error), steps, walked;
    }
    var built := converted.value;
    steps := built;
    var sorted := req.sortBy.value != NONE;
    var traversed := CustomizedPaths(store.edges, sources.value, built, sorted, req.capacity, req.limit);
    var paths := traversed.value;
    walked := paths;
    if !sorted {
      return Ok(paths), steps, walked;
    }
    var incr := req.sortBy.value == INCR;
    var buffer := new Path[|paths|](i requires 0 <= i < |paths| => paths[i]);
    assert buffer[..] == paths;
    forall i | 0 <= i < |paths| ensures paths[i].WeightPath? {
      assert paths[i] in traversed.value;
    }
    r := TopNPath(buffer, incr, req.limit);
  }
}
