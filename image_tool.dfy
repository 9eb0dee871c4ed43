/**
 * The request partitioning and result ordering of `download_figma_images_tool`
 * in backend/app/services/mcp_tools.py. The remote calls (render URLs, image
 * fill URLs, the download of one image) are supplied by the caller.
 */
module ImageTool {
  import opened Wrappers
  import opened Json
  import opened Paths
  import opened Seqs

  /** The three groups, processed in this order. */
  datatype Group = Png | Svg | Fill

  function Rank(g: Group): nat {
    match g
    case Png => 0
    case Svg => 1
    case Fill => 2
  }

  /**
   * One line of the result: `Downloaded PNG/SVG/Image Fill: <file>`, a
   * missing URL (`Failed to get URL for <id>`, or `Image Ref not found: <ref>`
   * for a fill), or an exception that ended the group (`Error downloading ...`).
   */
  datatype Message =
    | Downloaded(group: Group, fileName: string)
    | Missing(group: Group, key: Value)
    | GroupFailed(group: Group, error: Error)

  /** What one image download did. */
  datatype Transfer = Done | Failed(error: Error)

  // ---------------------------------------------------------------------
  // Partitioning the requests
  // ---------------------------------------------------------------------

  /** Rendered: a `nodeId` and no truthy `imageRef`. */
  predicate IsRenderNode(n: Fields) {
    Has(n, "nodeId") && !Truthy(GetOr(n, "imageRef", Null))
  }

  /** An image fill: any `imageRef` key, truthy or not. */
  predicate IsFillNode(n: Fields) {
    Has(n, "imageRef")
  }

  /** The requests rendered as images, in request order, each as often as it was requested. */
  function RenderNodes(nodes: seq<Fields>): (r: seq<Fields>)
    ensures forall n :: n in r <==> n in nodes && IsRenderNode(n)
    ensures forall n :: multiset(r)[n] == if IsRenderNode(n) then multiset(nodes)[n] else 0
    ensures Subsequence(r, nodes)
    ensures |r| <= |nodes|
  {
    FilterKeeps(IsRenderNode, nodes);
    Filter(IsRenderNode, nodes)
  }

  /** The requests for image fills, in request order, each as often as it was requested. */
  function FillNodes(nodes: seq<Fields>): (r: seq<Fields>)
    ensures forall n :: n in r <==> n in nodes && IsFillNode(n)
    ensures forall n :: multiset(r)[n] == if IsFillNode(n) then multiset(nodes)[n] else 0
    ensures Subsequence(r, nodes)
    ensures |r| <= |nodes|
  {
    FilterKeeps(IsFillNode, nodes);
    Filter(IsFillNode, nodes)
  }

  predicate EndsWith(s: string, suffix: string) {
    |suffix| <= |s| && s[|s| - |suffix|..] == suffix
  }

  /** `n.get('fileName', '').endswith('.svg')`: a file name that is not a string raises. */
  function IsSvg(n: Fields): Result<bool, Error> {
    match Get(n, "fileName")
    case None => Ok(false)
    case Some(f) => if f.Str? then Ok(EndsWith(f.s, ".svg")) else Err(AttributeError)
  }

  /** The render nodes with the given outcome of the SVG test, in order; the first failing test raises. */
  function WithSvg(nodes: seq<Fields>, svg: bool): Result<seq<Fields>, Error> {
    if nodes == [] then Ok([])
    else match IsSvg(nodes[0])
      case Err(e) => Err(e)
      case Ok(b) =>
        match WithSvg(nodes[1..], svg)
        case Err(e) => Err(e)
        case Ok(rest) => Ok((if b == svg then [nodes[0]] else []) + rest)
  }

  /** The PNG nodes and the SVG nodes; the PNG list is built first, so its error is the one raised. */
  function Partition(render: seq<Fields>): Result<(seq<Fields>, seq<Fields>), Error> {
    match WithSvg(render, false)
    case Err(e) => Err(e)
    case Ok(png) =>
      match WithSvg(render, true)
      case Err(e) => Err(e)
      case Ok(svg) => Ok((png, svg))
  }

  /** A render node whose file name ends in `.svg`. */
  predicate IsSvgNode(n: Fields) {
    IsSvg(n) == Ok(true)
  }

  /** A render node rendered as PNG: a string file name that does not end in `.svg`. */
  predicate IsPngNode(n: Fields) {
    IsSvg(n) == Ok(false)
  }

  /** A successful list comprehension over the render nodes is the filter by its condition. */
  lemma {:induction false} WithSvgFilters(render: seq<Fields>, svg: bool, p: Fields -> bool)
    requires forall n :: p(n) <==> IsSvg(n) == Ok(svg)
    ensures WithSvg(render, svg).Ok? ==> WithSvg(render, svg).value == Filter(p, render)
  {
    if render != [] {
      WithSvgFilters(render[1..], svg, p);
    }
  }

  /**
   * The render nodes split into SVG (a file name ending in `.svg`) and PNG (all
   * others), disjointly and exhaustively, each list in request order and with
   * each node as often as it was requested; the split fails exactly when some
   * render node has a file name that is not a string.
   */
  lemma {:induction false} PartitionSplits(render: seq<Fields>)
    ensures Partition(render).Err? <==> exists i :: 0 <= i < |render| && IsSvg(render[i]).Err?
    ensures Partition(render).Ok? ==>
      var (png, svg) := Partition(render).value;
      && |png| + |svg| == |render|
      && (forall n :: n in png <==> n in render && IsSvg(n) == Ok(false))
      && (forall n :: n in svg <==> n in render && IsSvg(n) == Ok(true))
    ensures Partition(render).Ok? ==>
      var (png, svg) := Partition(render).value;
      && png == Filter(IsPngNode, render) && svg == Filter(IsSvgNode, render)
      && (forall n :: multiset(png)[n] == if IsPngNode(n) then multiset(render)[n] else 0)
      && (forall n :: multiset(svg)[n] == if IsSvgNode(n) then multiset(render)[n] else 0)
      && Subsequence(png, render) && Subsequence(svg, render)
  {
    WithSvgFilters(render, false, IsPngNode);
    WithSvgFilters(render, true, IsSvgNode);
    FilterKeeps(IsPngNode, render);
    FilterKeeps(IsSvgNode, render);
    PartitionCases(render);
  }

  lemma {:induction false} PartitionCases(render: seq<Fields>)
    ensures Partition(render).Err? <==> exists i :: 0 <= i < |render| && IsSvg(render[i]).Err?
    ensures Partition(render).Ok? ==>
      var (png, svg) := Partition(render).value;
      && |png| + |svg| == |render|
      && (forall n :: n in png <==> n in render && IsSvg(n) == Ok(false))
      && (forall n :: n in svg <==> n in render && IsSvg(n) == Ok(true))
  {
    if render != [] {
      PartitionCases(render[1..]);
      assert forall i :: 0 < i < |render| ==> render[i] == render[1..][i - 1];
      assert forall n :: n in render <==> n == render[0] || n in render[1..];
      if IsSvg(render[0]).Err? {
        assert Partition(render).Err?;
      }
    }
  }

  /** A node with a `nodeId` and a falsy `imageRef` (such as `""` or `null`) is both rendered and fetched as a fill. */
  lemma RenderedAndFilled(nodes: seq<Fields>, n: Fields)
    requires n in nodes && Has(n, "nodeId") && Has(n, "imageRef") && !Truthy(GetOr(n, "imageRef", Null))
    ensures n in RenderNodes(nodes) && n in FillNodes(nodes)
  {
  }

  // ---------------------------------------------------------------------
  // Processing one group
  // ---------------------------------------------------------------------

  /** `key in urls` for a dict with string keys: other scalars are never found, lists and dicts cannot be hashed. */
  function Contains(key: Value, urls: Fields): Result<bool, Error> {
    match key
    case Str(s) => Ok(Has(urls, s))
    case Arr(_) => Err(TypeError)
    case Obj(_) => Err(TypeError)
    case _ => Ok(false)
  }

  /**
   * One node of a group: read its key (`nodeId` or `imageRef`) and its
   * `fileName` (a KeyError if absent); download when the key has a URL, or
   * report the missing URL.
   */
  function Step(g: Group, keyName: string, n: Fields, urls: Fields, localPath: string,
                download: (Value, string) -> Transfer): Result<Message, Error>
  {
    var key := GetOr(n, keyName, Null);
    match Subscript(Obj(n), "fileName")
    case Err(e) => Err(e)
    case Ok(fileName) =>
      match Contains(key, urls)
      case Err(e) => Err(e)
      case Ok(false) => Ok(Missing(g, key))
      case Ok(true) =>
        if !fileName.Str? then Err(TypeError)
        else match download(GetOr(urls, key.s, Null), PathJoin(localPath, fileName.s))
          case Failed(e) => Err(e)
          case Done => Ok(Downloaded(g, fileName.s))
  }

  /** The body of a group's loop, for one group's key and URL map. */
  function StepOf(g: Group, keyName: string, urls: Fields, localPath: string,
                  download: (Value, string) -> Transfer): Fields -> Result<Message, Error>
  {
    n => Step(g, keyName, n, urls, localPath, download)
  }

  /**
   * The loop of a group: one message per node, until an exception ends the
   * group with its message. The nodes are kept abstract so that the loop is
   * reasoned about through its step alone.
   */
  function Each<N>(g: Group, step: N -> Result<Message, Error>, nodes: seq<N>): seq<Message> {
    if nodes == [] then []
    else match step(nodes[0])
      case Err(e) => [GroupFailed(g, e)]
      case Ok(m) => [m] + Each(g, step, nodes[1..])
  }

  /** `",".join(ids)`: every id must be a string. */
  function JoinIds(ids: seq<Value>): Result<string, Error> {
    if ids == [] then Ok("")
    else if !ids[0].Str? then Err(TypeError)
    else if |ids| == 1 then Ok(ids[0].s)
    else match JoinIds(ids[1..])
      case Err(e) => Err(e)
      case Ok(rest) => Ok(ids[0].s + "," + rest)
  }

  function NodeIds(nodes: seq<Fields>): (ids: seq<Value>)
    ensures |ids| == |nodes| && forall i :: 0 <= i < |nodes| ==> ids[i] == GetOr(nodes[i], "nodeId", Null)
  {
    seq(|nodes|, i requires 0 <= i < |nodes| => GetOr(nodes[i], "nodeId", Null))
  }

  function FormatOf(g: Group): string {
    if g == Svg then "svg" else "png"
  }

  /** A render group: nothing when empty; otherwise one URL request for all its ids, then the loop. */
  function RenderGroup(g: Group, nodes: seq<Fields>, renderUrls: (string, string) -> Result<Fields, Error>,
                       localPath: string, download: (Value, string) -> Transfer): seq<Message>
  {
    if nodes == [] then []
    else match JoinIds(NodeIds(nodes))
      case Err(e) => [GroupFailed(g, e)]
      case Ok(ids) =>
        match renderUrls(ids, FormatOf(g))
        case Err(e) => [GroupFailed(g, e)]
        case Ok(urls) => Each(g, StepOf(g, "nodeId", urls, localPath, download), nodes)
  }

  /** The fill group: nothing when empty; otherwise one request for the file's fill URLs, then the loop. */
  function FillGroup(nodes: seq<Fields>, fillUrls: Result<Fields, Error>, localPath: string,
                     download: (Value, string) -> Transfer): seq<Message>
  {
    if nodes == [] then []
    else match fillUrls
      case Err(e) => [GroupFailed(Fill, e)]
      case Ok(urls) => Each(Fill, StepOf(Fill, "imageRef", urls, localPath, download), nodes)
  }

  /** The whole tool: PNG renders, then SVG renders, then fills; only a bad file name escapes as an exception. */
  function DownloadImages(nodes: seq<Fields>, localPath: string,
                          renderUrls: (string, string) -> Result<Fields, Error>,
                          fillUrls: Result<Fields, Error>, download: (Value, string) -> Transfer)
    : Result<seq<Message>, Error>
  {
    var render := RenderNodes(nodes);
    match Partition(render)
    case Err(e) => Err(e)
    case Ok(parts) =>
      Ok(RenderGroup(Png, parts.0, renderUrls, localPath, download)
         + RenderGroup(Svg, parts.1, renderUrls, localPath, download)
         + FillGroup(FillNodes(nodes), fillUrls, localPath, download))
  }

  // ---------------------------------------------------------------------
  // The procedure
  // ---------------------------------------------------------------------

  /** One turn of the loop of a group that goes on to the next node. */
  lemma EachAdvance<N>(g: Group, step: N -> Result<Message, Error>, nodes: seq<N>, i: nat, results: seq<Message>)
    requires i < |nodes| && step(nodes[i]).Ok?
    requires results + Each(g, step, nodes[i..]) == Each(g, step, nodes)
    ensures (results + [step(nodes[i]).value]) + Each(g, step, nodes[i + 1..]) == Each(g, step, nodes)
  {
    assert nodes[i..][0] == nodes[i] && nodes[i..][1..] == nodes[i + 1..];
    assert Each(g, step, nodes[i..]) == [step(nodes[i]).value] + Each(g, step, nodes[i + 1..]);
  }

  /** The turn of the loop of a group that ends it with an exception. */
  lemma EachStop<N>(g: Group, step: N -> Result<Message, Error>, nodes: seq<N>, i: nat, results: seq<Message>)
    requires i < |nodes| && step(nodes[i]).Err?
    requires results + Each(g, step, nodes[i..]) == Each(g, step, nodes)
    ensures results + [GroupFailed(g, step(nodes[i]).error)] == Each(g, step, nodes)
  {
    assert nodes[i..][0] == nodes[i];
  }

  /** The loop over the nodes of one group. */
  method RunEach<N>(g: Group, step: N -> Result<Message, Error>, nodes: seq<N>) returns (results: seq<Message>)
    ensures results == Each(g, step, nodes)
  {
    results := [];
    var i := 0;
    while i < |nodes|
      invariant 0 <= i <= |nodes|
      invariant results + Each(g, step, nodes[i..]) == Each(g, step, nodes)
    {
      var outcome := step(nodes[i]);
      if outcome.Err? {
        EachStop(g, step, nodes, i, results);
        return results + [GroupFailed(g, outcome.error)];
      }
      EachAdvance(g, step, nodes, i, results);
      results := results + [outcome.value];
      i := i + 1;
    }
    assert nodes[i..] == [];
  }

  /** One render group: the id list, the URL request, then the loop. */
  method RunRenderGroup(g: Group, nodes: seq<Fields>, renderUrls: (string, string) -> Result<Fields, Error>,
                        localPath: string, download: (Value, string) -> Transfer) returns (results: seq<Message>)
    ensures results == RenderGroup(g, nodes, renderUrls, localPath, download)
  {
    if nodes == [] {
      return [];
    }
    var ids := JoinIds(NodeIds(nodes));
    if ids.Err? {
      return [GroupFailed(g, ids.error)];
    }
    var urls := renderUrls(ids.value, FormatOf(g));
    if urls.Err? {
      return [GroupFailed(g, urls.error)];
    }
    results := RunEach(g, StepOf(g, "nodeId", urls.value, localPath, download), nodes);
  }

  /** `download_figma_images_tool`, returning its result lines. */
  method DownloadFigmaImagesTool(nodes: seq<Fields>, localPath: string,
                                 renderUrls: (string, string) -> Result<Fields, Error>,
                                 fillUrls: Result<Fields, Error>, download: (Value, string) -> Transfer)
    returns (r: Result<seq<Message>, Error>)
    ensures r == DownloadImages(nodes, localPath, renderUrls, fillUrls, download)
  {
    var results: seq<Message> := [];
    var render := RenderNodes(nodes);
    var parts := Partition(render);
    if parts.Err? {
      return Err(parts.error);
    }
    var png := RunRenderGroup(Png, parts.value.0, renderUrls, localPath, download);
    var svg := RunRenderGroup(Svg, parts.value.1, renderUrls, localPath, download);
    var fills := FillNodes(nodes);
    var more: seq<Message> := [];
    if fills != [] {
      if fillUrls.Err? {
        more := [GroupFailed(Fill, fillUrls.error)];
      } else {
        more := RunEach(Fill, StepOf(Fill, "imageRef", fillUrls.value, localPath, download), fills);
      }
    }
    results := png + svg + more;
    return Ok(results);
  }

  // ---------------------------------------------------------------------
  // Properties of the result
  // ---------------------------------------------------------------------

  /**
   * Within a group, every node gets one message, in order: a download or a
   * missing URL (which does not stop the loop); an exception ends the group
   * with one failure message, the last, and the list stops short of the
   * nodes only right after such a failure.
   */
  lemma {:induction false} EachShape<N>(g: Group, step: N -> Result<Message, Error>, nodes: seq<N>)
    ensures var ms := Each(g, step, nodes);
      && |ms| <= |nodes|
      && (forall i :: 0 <= i < |ms| - 1 ==> step(nodes[i]).Ok? && ms[i] == step(nodes[i]).value)
      && (|ms| > 0 ==> ms[|ms| - 1] == if step(nodes[|ms| - 1]).Ok? then step(nodes[|ms| - 1]).value
                                       else GroupFailed(g, step(nodes[|ms| - 1]).error))
      && ((forall i :: 0 <= i < |nodes| ==> step(nodes[i]).Ok?) <==> |ms| == |nodes| && (|ms| > 0 ==> step(nodes[|ms| - 1]).Ok?))
      && (|ms| < |nodes| ==> |ms| > 0 && step(nodes[|ms| - 1]).Err?)
  {
    if nodes != [] {
      EachShape(g, step, nodes[1..]);
      assert forall i :: 0 < i < |nodes| ==> nodes[i] == nodes[1..][i - 1];
    }
  }

  /** Every message of a group's loop belongs to the group, when every step does. */
  lemma {:induction false} EachGroup<N>(g: Group, step: N -> Result<Message, Error>, nodes: seq<N>)
    requires forall n :: step(n).Ok? ==> step(n).value.group == g
    ensures forall m :: m in Each(g, step, nodes) ==> m.group == g
  {
    if nodes != [] && step(nodes[0]).Ok? {
      EachGroup(g, step, nodes[1..]);
      assert Each(g, step, nodes) == [step(nodes[0]).value] + Each(g, step, nodes[1..]);
    }
  }

  /** A step reports its own group. */
  lemma StepGroup(g: Group, keyName: string, urls: Fields, localPath: string, download: (Value, string) -> Transfer)
    ensures var step := StepOf(g, keyName, urls, localPath, download);
      forall n :: step(n).Ok? ==> step(n).value.group == g
  {
  }

  /** A node with a `fileName` whose key has no URL gets the missing-URL message, and the loop goes on with the next node. */
  lemma MissingContinues(g: Group, keyName: string, nodes: seq<Fields>, urls: Fields, localPath: string,
                         download: (Value, string) -> Transfer)
    requires |nodes| >= 1
    requires Has(nodes[0], "fileName")
    requires Contains(GetOr(nodes[0], keyName, Null), urls) == Ok(false)
    ensures var step := StepOf(g, keyName, urls, localPath, download);
      Each(g, step, nodes) == [Missing(g, GetOr(nodes[0], keyName, Null))] + Each(g, step, nodes[1..])
  {
  }

  /** Every message of a render group belongs to that group. */
  lemma RenderGroupOf(g: Group, nodes: seq<Fields>, renderUrls: (string, string) -> Result<Fields, Error>,
                      localPath: string, download: (Value, string) -> Transfer)
    ensures forall m :: m in RenderGroup(g, nodes, renderUrls, localPath, download) ==> m.group == g
  {
    if nodes != [] && JoinIds(NodeIds(nodes)).Ok? && renderUrls(JoinIds(NodeIds(nodes)).value, FormatOf(g)).Ok? {
      var urls := renderUrls(JoinIds(NodeIds(nodes)).value, FormatOf(g)).value;
      StepGroup(g, "nodeId", urls, localPath, download);
      EachGroup(g, StepOf(g, "nodeId", urls, localPath, download), nodes);
    }
  }

  lemma FillGroupOf(nodes: seq<Fields>, fillUrls: Result<Fields, Error>, localPath: string,
                    download: (Value, string) -> Transfer)
    ensures forall m :: m in FillGroup(nodes, fillUrls, localPath, download) ==> m.group == Fill
  {
    if nodes != [] && fillUrls.Ok? {
      StepGroup(Fill, "imageRef", fillUrls.value, localPath, download);
      EachGroup(Fill, StepOf(Fill, "imageRef", fillUrls.value, localPath, download), nodes);
    }
  }

  /** Three runs of messages, each of one group, concatenated in order of rank. */
  lemma Ordered(a: seq<Message>, b: seq<Message>, c: seq<Message>)
    requires forall m :: m in a ==> m.group == Png
    requires forall m :: m in b ==> m.group == Svg
    requires forall m :: m in c ==> m.group == Fill
    ensures var ms := a + b + c;
      forall i, j :: 0 <= i <= j < |ms| ==> Rank(ms[i].group) <= Rank(ms[j].group)
  {
    var ms := a + b + c;
    forall i | 0 <= i < |ms|
      ensures Rank(ms[i].group) == if i < |a| then 0 else if i < |a| + |b| then 1 else 2
    {
      if i < |a| {
        assert ms[i] == a[i];
      } else if i < |a| + |b| {
        assert ms[i] == b[i - |a|];
      } else {
        assert ms[i] == c[i - |a| - |b|];
      }
    }
  }

  /** The result lists the PNG group, then the SVG group, then the fill group. */
  lemma GroupsInOrder(nodes: seq<Fields>, localPath: string,
                      renderUrls: (string, string) -> Result<Fields, Error>,
                      fillUrls: Result<Fields, Error>, download: (Value, string) -> Transfer)
    requires DownloadImages(nodes, localPath, renderUrls, fillUrls, download).Ok?
    ensures var ms := DownloadImages(nodes, localPath, renderUrls, fillUrls, download).value;
      forall i, j :: 0 <= i <= j < |ms| ==> Rank(ms[i].group) <= Rank(ms[j].group)
  {
    var parts := Partition(RenderNodes(nodes)).value;
    var a := RenderGroup(Png, parts.0, renderUrls, localPath, download);
    var b := RenderGroup(Svg, parts.1, renderUrls, localPath, download);
    var c := FillGroup(FillNodes(nodes), fillUrls, localPath, download);
    RenderGroupOf(Png, parts.0, renderUrls, localPath, download);
    RenderGroupOf(Svg, parts.1, renderUrls, localPath, download);
    FillGroupOf(FillNodes(nodes), fillUrls, localPath, download);
    Ordered(a, b, c);
  }
}
