/**
 * The tree reducer: projects a raw design-file response (an untyped JSON tree)
 * onto a smaller tree that keeps only what downstream consumers need.
 * Models `simplify_figma_node` and `process_figma_response` of
 * backend/app/services/figma.py.
 */
module Reducer {
  import opened Wrappers
  import opened Json
  import opened Seqs

  /** A node is cut off by depth when a limit is set and the node lies below it. */
  predicate Pruned(depth: int, maxDepth: Option<int>) {
    maxDepth.Some? && depth > maxDepth.value
  }

  /** A missing `visible` member means visible; any falsy value hides the node. */
  predicate Visible(fs: Fields) {
    Truthy(GetOr(fs, "visible", Bool(true)))
  }

  /** The output `type`: `VECTOR` becomes `IMAGE-SVG`, every other value is kept. */
  function Kind(fs: Fields): Value {
    var t := GetOr(fs, "type", Null);
    if t == Str("VECTOR") then Str("IMAGE-SVG") else t
  }

  /** The member `key` of `fs`, as a one-member list when present. */
  function Copied(fs: Fields, key: string): Fields {
    match Get(fs, key)
    case Some(v) => [(key, v)]
    case None => []
  }

  /** Text content, and its style only when there is text. */
  function TextMembers(fs: Fields): Fields {
    if Has(fs, "characters") then Copied(fs, "characters") + Copied(fs, "style") else []
  }

  /** The members every reduced node has. */
  function Head(fs: Fields): Fields {
    [("id", GetOr(fs, "id", Null)), ("name", GetOr(fs, "name", Null)), ("type", Kind(fs))]
  }

  /** The optional members, in insertion order; an empty list of reduced children leaves `children` out. */
  function Tail(fs: Fields, kids: seq<Value>): Fields {
    Copied(fs, "absoluteBoundingBox") + TextMembers(fs) + Copied(fs, "fills") + Copied(fs, "componentId")
    + if kids == [] then [] else [("children", Arr(kids))]
  }

  /** A reduced node. */
  function WithChildren(fs: Fields, kids: seq<Value>): Value {
    Obj(Head(fs) + Tail(fs, kids))
  }

  /** The list with the value of an option, or the empty list. */
  function OptionSeq(o: Option<Value>): seq<Value> {
    match o
    case Some(v) => [v]
    case None => []
  }

  /**
   * `simplify_figma_node(node, depth, max_depth)`: `Ok(None)` for a pruned node,
   * `Ok(Some(r))` for a kept one, `Err` when Python would raise (the node is
   * not a dict, or its `children` cannot be iterated).
   */
  function SimplifyNode(node: Value, depth: int, maxDepth: Option<int>): Result<Option<Value>, Error>
    decreases node
  {
    if Pruned(depth, maxDepth) then Ok(None)
    else if !node.Obj? then Err(AttributeError)
    else if !Visible(node.fields) then Ok(None)
    else match Get(node.fields, "children")
      case None => Ok(Some(WithChildren(node.fields, [])))
      case Some(c) =>
        match SimplifyChildren(c, depth + 1, maxDepth)
        case Err(e) => Err(e)
        case Ok(kids) => Ok(Some(WithChildren(node.fields, kids)))
  }

  /**
   * The loop over `node["children"]`. A list is reduced element by element.
   * A dict or a string is iterated as its keys or characters, which are
   * strings: each is pruned by depth or raises, see `IterationAgrees`.
   */
  function SimplifyChildren(children: Value, depth: int, maxDepth: Option<int>): Result<seq<Value>, Error>
    decreases children
  {
    match children
    case Arr(items) => SimplifyAll(items, depth, maxDepth)
    case Obj(fs) => LeafChildren(|fs|, depth, maxDepth)
    case Str(s) => LeafChildren(|s|, depth, maxDepth)
    case _ => Err(TypeError)
  }

  /** Reducing `count` string children: nothing survives, and any that is not pruned raises. */
  function LeafChildren(count: nat, depth: int, maxDepth: Option<int>): Result<seq<Value>, Error> {
    if count == 0 || Pruned(depth, maxDepth) then Ok([]) else Err(AttributeError)
  }

  /** Reduce each element in order, keep the non-None results, stop at the first exception. */
  function SimplifyAll(items: seq<Value>, depth: int, maxDepth: Option<int>): Result<seq<Value>, Error>
    decreases items
  {
    if items == [] then Ok([])
    else match SimplifyNode(items[0], depth, maxDepth)
      case Err(e) => Err(e)
      case Ok(first) =>
        match SimplifyAll(items[1..], depth, maxDepth)
        case Err(e) => Err(e)
        case Ok(rest) => Ok(OptionSeq(first) + rest)
  }

  /** The `metadata` member: three members of the response copied verbatim, `null` when absent. */
  function Metadata(fs: Fields): Value {
    Obj([("name", GetOr(fs, "name", Null)),
         ("lastModified", GetOr(fs, "lastModified", Null)),
         ("thumbnailUrl", GetOr(fs, "thumbnailUrl", Null))])
  }

  /** Top-level nodes of a whole-file response: the document's children, at depth 0. */
  function DocumentNodes(root: Value, maxDepth: Option<int>): Result<seq<Value>, Error> {
    match In("children", root)
    case Err(e) => Err(e)
    case Ok(false) => Ok([])
    case Ok(true) =>
      match Subscript(root, "children")
      case Err(e) => Err(e)
      case Ok(cs) =>
        match Iterate(cs)
        case Err(e) => Err(e)
        case Ok(children) => SimplifyAll(children, 0, maxDepth)
  }

  /** One entry of a node-list response: its `document`, reduced at depth 0, if it has one. */
  function EntryNode(entry: Value, maxDepth: Option<int>): Result<Option<Value>, Error> {
    match In("document", entry)
    case Err(e) => Err(e)
    case Ok(false) => Ok(None)
    case Ok(true) =>
      match Subscript(entry, "document")
      case Err(e) => Err(e)
      case Ok(doc) => SimplifyNode(doc, 0, maxDepth)
  }

  /** Top-level nodes of a node-list response, in the mapping's order. */
  function EntryNodes(entries: Fields, maxDepth: Option<int>): Result<seq<Value>, Error> {
    if entries == [] then Ok([])
    else match EntryNode(entries[0].1, maxDepth)
      case Err(e) => Err(e)
      case Ok(first) =>
        match EntryNodes(entries[1..], maxDepth)
        case Err(e) => Err(e)
        case Ok(rest) => Ok(OptionSeq(first) + rest)
  }

  /** The `nodes` list: `document` first, then `nodes`, else empty. */
  function TopLevelNodes(fs: Fields, maxDepth: Option<int>): Result<seq<Value>, Error> {
    match Get(fs, "document")
    case Some(root) => DocumentNodes(root, maxDepth)
    case None =>
      match Get(fs, "nodes")
      case None => Ok([])
      case Some(entries) => if entries.Obj? then EntryNodes(entries.fields, maxDepth) else Err(AttributeError)
  }

  /** The reduced response built around a list of top-level nodes. */
  function Reduced(fs: Fields, nodes: seq<Value>): Value {
    Obj([("metadata", Metadata(fs)),
         ("nodes", Arr(nodes)),
         ("components", GetOr(fs, "components", Obj([]))),
         ("styles", GetOr(fs, "styles", Obj([]))),
         ("globalVars", Obj([("styles", Obj([]))]))])
  }

  /**
   * `process_figma_response(data, max_depth)`. What it returns is stated by
   * ResponseMembers, ResponseValues, ResponseWithinDepth and ResponsesReduce.
   */
  function ProcessFigmaResponse(data: Value, maxDepth: Option<int>): (r: Result<Value, Error>)
    ensures r.Ok? ==> data.Obj? && r.value.Obj?
  {
    if !data.Obj? then Err(AttributeError)
    else match TopLevelNodes(data.fields, maxDepth)
      case Err(e) => Err(e)
      case Ok(nodes) => Ok(Reduced(data.fields, nodes))
  }

  // ---------------------------------------------------------------------
  // Properties of a single reduced node
  // ---------------------------------------------------------------------

  /** The keys a reduced node can carry. */
  const OutputKeys: set<string> :=
    {"id", "name", "type", "absoluteBoundingBox", "characters", "style", "fills", "componentId", "children"}

  /** What a reduced node holds under each key, described key by key. */
  function Expected(fs: Fields, kids: seq<Value>, k: string): Option<Value> {
    if k == "id" then Some(GetOr(fs, "id", Null))
    else if k == "name" then Some(GetOr(fs, "name", Null))
    else if k == "type" then Some(if GetOr(fs, "type", Null) == Str("VECTOR") then Str("IMAGE-SVG") else GetOr(fs, "type", Null))
    else if k == "absoluteBoundingBox" || k == "characters" || k == "fills" || k == "componentId" then Get(fs, k)
    else if k == "style" then (if Has(fs, "characters") then Get(fs, "style") else None)
    else if k == "children" then (if kids == [] then None else Some(Arr(kids)))
    else None
  }

  lemma GetCopied(fs: Fields, key: string, k: string)
    ensures Get(Copied(fs, key), k) == if k == key then Get(fs, key) else None
  {
  }

  /**
   * A reduced node carries `id`, `name` and `type` (`VECTOR` renamed), the
   * optional members exactly when the raw node has them, `style` only with
   * `characters`, `children` only when some child survived, and nothing else.
   */
  lemma MembersOf(fs: Fields, kids: seq<Value>, k: string)
    ensures Get(WithChildren(fs, kids).fields, k) == Expected(fs, kids, k)
    ensures Has(WithChildren(fs, kids).fields, k) ==> k in OutputKeys
  {
    GetAppend(Head(fs), Tail(fs, kids), k);
    HeadAt(fs, k);
    if !(k == "id" || k == "name" || k == "type") {
      TailAt(fs, kids, k);
    }
    assert Get(WithChildren(fs, kids).fields, k) == Expected(fs, kids, k);
    ExpectedKeys(fs, kids, k);
  }

  lemma ExpectedKeys(fs: Fields, kids: seq<Value>, k: string)
    ensures Expected(fs, kids, k).Some? ==> k in OutputKeys
  {
  }

  lemma TailAt(fs: Fields, kids: seq<Value>, k: string)
    requires !(k == "id" || k == "name" || k == "type")
    ensures Get(Tail(fs, kids), k) == Expected(fs, kids, k)
  {
    var bb, tx, fl, ci := Copied(fs, "absoluteBoundingBox"), TextMembers(fs), Copied(fs, "fills"), Copied(fs, "componentId");
    var ch: Fields := if kids == [] then [] else [("children", Arr(kids))];
    GetAppend(bb + tx + fl + ci, ch, k);
    GetAppend(bb + tx + fl, ci, k);
    GetAppend(bb + tx, fl, k);
    GetAppend(bb, tx, k);
    GetCopied(fs, "absoluteBoundingBox", k);
    GetCopied(fs, "fills", k);
    GetCopied(fs, "componentId", k);
    TextMembersAt(fs, k);
  }

  lemma HeadAt(fs: Fields, k: string)
    ensures Get(Head(fs), k)
         == if k == "id" then Some(GetOr(fs, "id", Null))
            else if k == "name" then Some(GetOr(fs, "name", Null))
            else if k == "type" then Some(Kind(fs))
            else None
  {
    assert Head(fs)[1..][1..][1..] == [];
  }

  lemma TextMembersAt(fs: Fields, k: string)
    ensures Get(TextMembers(fs), k)
         == if k == "characters" then Get(fs, k)
            else if k == "style" && Has(fs, "characters") then Get(fs, k)
            else None
  {
    if Has(fs, "characters") {
      GetAppend(Copied(fs, "characters"), Copied(fs, "style"), k);
      GetCopied(fs, "characters", k);
      GetCopied(fs, "style", k);
    }
  }

  /** A node is pruned exactly when it lies below the depth limit or is a hidden dict. */
  lemma PrunedExactly(node: Value, depth: int, maxDepth: Option<int>)
    ensures SimplifyNode(node, depth, maxDepth) == Ok(None)
        <==> Pruned(depth, maxDepth) || (node.Obj? && !Visible(node.fields))
  {
  }

  /**
   * A kept node comes from a visible dict within the limit; its members are
   * described by `Expected`, with the surviving children of the raw ones.
   */
  lemma KeptNode(node: Value, depth: int, maxDepth: Option<int>, k: string)
    requires SimplifyNode(node, depth, maxDepth).Ok? && SimplifyNode(node, depth, maxDepth).value.Some?
    ensures node.Obj? && Visible(node.fields) && !Pruned(depth, maxDepth)
    ensures var r := SimplifyNode(node, depth, maxDepth).value.value;
      && r.Obj?
      && (Has(node.fields, "children") ==> SimplifyChildren(GetOr(node.fields, "children", Null), depth + 1, maxDepth).Ok?)
      && Get(r.fields, k) == Expected(node.fields, ReducedChildren(node.fields, depth, maxDepth), k)
      && (Has(r.fields, k) ==> k in OutputKeys)
  {
    MembersOf(node.fields, ReducedChildren(node.fields, depth, maxDepth), k);
  }

  /**
   * A proof helper for KeptKeys and the lemmas built on MembersOf, not a
   * specification: a kept node is the reduction of a visible dict within the
   * limit, with its surviving children.
   */
  lemma KeptShape(node: Value, depth: int, maxDepth: Option<int>)
    requires SimplifyNode(node, depth, maxDepth).Ok? && SimplifyNode(node, depth, maxDepth).value.Some?
    ensures node.Obj? && Visible(node.fields) && !Pruned(depth, maxDepth)
    ensures Has(node.fields, "children") ==> SimplifyChildren(GetOr(node.fields, "children", Null), depth + 1, maxDepth).Ok?
    ensures SimplifyNode(node, depth, maxDepth).value.value == WithChildren(node.fields, ReducedChildren(node.fields, depth, maxDepth))
  {
  }

  /** The optional output keys, in the order a reduced node inserts them. */
  const OptionalKeys: seq<string> := ["absoluteBoundingBox", "characters", "style", "fills", "componentId", "children"]

  /** `[k]` when a reduced node holds something under `k`, else `[]`. */
  function Marked(fs: Fields, kids: seq<Value>, k: string): seq<string> {
    if Expected(fs, kids, k).Some? then [k] else []
  }

  /** A key under which a reduced node holds something. */
  function IsPresent(fs: Fields, kids: seq<Value>): string -> bool {
    k => Expected(fs, kids, k).Some?
  }

  /** The keys of `ks` under which a reduced node holds something, in the order of `ks`. */
  function PresentKeys(fs: Fields, kids: seq<Value>, ks: seq<string>): seq<string> {
    Filter(IsPresent(fs, kids), ks)
  }

  /**
   * The members of a kept node come in a fixed order: `id`, `name` and
   * `type`, then each optional key that has a value, in the order of
   * `OptionalKeys`.
   */
  lemma KeptKeys(node: Value, depth: int, maxDepth: Option<int>)
    requires SimplifyNode(node, depth, maxDepth).Ok? && SimplifyNode(node, depth, maxDepth).value.Some?
    ensures node.Obj?
    ensures Keys(SimplifyNode(node, depth, maxDepth).value.value.fields)
         == ["id", "name", "type"] + PresentKeys(node.fields, ReducedChildren(node.fields, depth, maxDepth), OptionalKeys)
  {
    KeptShape(node, depth, maxDepth);
    NodeKeys(node.fields, ReducedChildren(node.fields, depth, maxDepth));
  }

  lemma NodeKeys(fs: Fields, kids: seq<Value>)
    ensures Keys(WithChildren(fs, kids).fields) == ["id", "name", "type"] + PresentKeys(fs, kids, OptionalKeys)
  {
    KeysAppend(Head(fs), Tail(fs, kids));
    HeadKeyOrder(fs);
    TailKeyOrder(fs, kids);
    OptionalPresent(fs, kids);
  }

  lemma HeadKeyOrder(fs: Fields)
    ensures Keys(Head(fs)) == ["id", "name", "type"]
  {
  }

  lemma CopiedKeys(fs: Fields, key: string)
    ensures Keys(Copied(fs, key)) == if Has(fs, key) then [key] else []
  {
  }

  lemma TailKeyOrder(fs: Fields, kids: seq<Value>)
    ensures Keys(Tail(fs, kids))
         == Marked(fs, kids, "absoluteBoundingBox") + Marked(fs, kids, "characters") + Marked(fs, kids, "style")
          + Marked(fs, kids, "fills") + Marked(fs, kids, "componentId") + Marked(fs, kids, "children")
  {
    var bb, tx, fl, ci := Copied(fs, "absoluteBoundingBox"), TextMembers(fs), Copied(fs, "fills"), Copied(fs, "componentId");
    var ch: Fields := if kids == [] then [] else [("children", Arr(kids))];
    JoinKeys(bb, tx, fl, ci, ch);
    MarkedCopied(fs, kids, "absoluteBoundingBox");
    MarkedCopied(fs, kids, "fills");
    MarkedCopied(fs, kids, "componentId");
    TextKeys(fs, kids);
    MarkedChildren(fs, kids);
    JoinSix(Keys(bb), Keys(fl), Keys(ci), Keys(ch), Marked(fs, kids, "characters"), Marked(fs, kids, "style"));
  }

  lemma JoinKeys(a: Fields, b: Fields, c: Fields, d: Fields, e: Fields)
    ensures Keys(a + b + c + d + e) == Keys(a) + Keys(b) + Keys(c) + Keys(d) + Keys(e)
  {
    KeysAppend(a + b + c + d, e);
    KeysAppend(a + b + c, d);
    KeysAppend(a + b, c);
    KeysAppend(a, b);
  }

  lemma JoinSix(a: seq<string>, c: seq<string>, d: seq<string>, e: seq<string>, b1: seq<string>, b2: seq<string>)
    ensures a + (b1 + b2) + c + d + e == a + b1 + b2 + c + d + e
  {
  }

  /** `Keys(Copied(fs, k))`, for a key copied as it is. */
  lemma MarkedCopied(fs: Fields, kids: seq<Value>, k: string)
    requires k == "absoluteBoundingBox" || k == "characters" || k == "fills" || k == "componentId"
    ensures Marked(fs, kids, k) == Keys(Copied(fs, k))
  {
    CopiedKeys(fs, k);
  }

  lemma MarkedChildren(fs: Fields, kids: seq<Value>)
    ensures Marked(fs, kids, "children") == Keys(if kids == [] then [] else [("children", Arr(kids))])
  {
  }

  lemma TextKeys(fs: Fields, kids: seq<Value>)
    ensures Keys(TextMembers(fs)) == Marked(fs, kids, "characters") + Marked(fs, kids, "style")
  {
    MarkedCopied(fs, kids, "characters");
    if Has(fs, "characters") {
      KeysAppend(Copied(fs, "characters"), Copied(fs, "style"));
      CopiedKeys(fs, "style");
    }
  }

  lemma OptionalPresent(fs: Fields, kids: seq<Value>)
    ensures PresentKeys(fs, kids, OptionalKeys)
         == Marked(fs, kids, "absoluteBoundingBox") + Marked(fs, kids, "characters") + Marked(fs, kids, "style")
          + Marked(fs, kids, "fills") + Marked(fs, kids, "componentId") + Marked(fs, kids, "children")
  {
    var o := OptionalKeys;
    assert o == [o[0]] + [o[1]] + [o[2]] + [o[3]] + [o[4]] + [o[5]];
    PresentAppend(fs, kids, [o[0]] + [o[1]] + [o[2]] + [o[3]] + [o[4]], [o[5]]);
    PresentAppend(fs, kids, [o[0]] + [o[1]] + [o[2]] + [o[3]], [o[4]]);
    PresentAppend(fs, kids, [o[0]] + [o[1]] + [o[2]], [o[3]]);
    PresentAppend(fs, kids, [o[0]] + [o[1]], [o[2]]);
    PresentAppend(fs, kids, [o[0]], [o[1]]);
    PresentOne(fs, kids, o[0]);
    PresentOne(fs, kids, o[1]);
    PresentOne(fs, kids, o[2]);
    PresentOne(fs, kids, o[3]);
    PresentOne(fs, kids, o[4]);
    PresentOne(fs, kids, o[5]);
  }

  lemma PresentOne(fs: Fields, kids: seq<Value>, k: string)
    ensures PresentKeys(fs, kids, [k]) == Marked(fs, kids, k)
  {
    assert [k][1..] == [];
  }

  lemma PresentAppend(fs: Fields, kids: seq<Value>, a: seq<string>, b: seq<string>)
    ensures PresentKeys(fs, kids, a + b) == PresentKeys(fs, kids, a) + PresentKeys(fs, kids, b)
  {
    FilterAppend(IsPresent(fs, kids), a, b);
  }

  /** The surviving children of a raw node (empty when it has none or on an exception). */
  function ReducedChildren(fs: Fields, depth: int, maxDepth: Option<int>): seq<Value> {
    match Get(fs, "children")
    case None => []
    case Some(c) =>
      match SimplifyChildren(c, depth + 1, maxDepth)
      case Ok(kids) => kids
      case Err(_) => []
  }

  // ---------------------------------------------------------------------
  // The children loop is a map followed by a filter
  // ---------------------------------------------------------------------

  /** Keep the present values, in order. */
  function Somes(s: seq<Option<Value>>): seq<Value> {
    if s == [] then [] else OptionSeq(s[0]) + Somes(s[1..])
  }

  /** Filtering keeps exactly the present values and never grows. */
  lemma {:induction false} SomesMembers(s: seq<Option<Value>>)
    ensures |Somes(s)| <= |s|
    ensures forall v :: v in Somes(s) <==> Some(v) in s
    ensures Somes(s) == [] <==> forall i :: 0 <= i < |s| ==> s[i].None?
  {
    if s != [] {
      SomesMembers(s[1..]);
      assert forall v :: Some(v) in s <==> Some(v) == s[0] || Some(v) in s[1..] by {
        assert s == [s[0]] + s[1..];
      }
      if s[0].None? {
        assert forall i :: 0 < i < |s| ==> s[i] == s[1..][i - 1];
      }
    }
  }

  /** Filtering preserves relative order: it distributes over concatenation. */
  lemma {:induction false} SomesAppend(a: seq<Option<Value>>, b: seq<Option<Value>>)
    ensures Somes(a + b) == Somes(a) + Somes(b)
  {
    if a == [] {
      assert a + b == b;
    } else {
      assert (a + b)[0] == a[0] && (a + b)[1..] == a[1..] + b;
      SomesAppend(a[1..], b);
    }
  }

  /** The reductions of some elements, defined where all of them succeed. */
  function Reductions(items: seq<Value>, depth: int, maxDepth: Option<int>): (r: seq<Option<Value>>)
    requires forall i :: 0 <= i < |items| ==> SimplifyNode(items[i], depth, maxDepth).Ok?
    ensures |r| == |items| && forall i :: 0 <= i < |items| ==> r[i] == SimplifyNode(items[i], depth, maxDepth).value
  {
    seq(|items|, i requires 0 <= i < |items| => SimplifyNode(items[i], depth, maxDepth).value)
  }

  /**
   * Reducing a list of children succeeds exactly when every child does; the
   * result is the non-None reductions in their original order, and an
   * exception is the one of the first child that raises.
   */
  lemma SimplifyAllFilters(items: seq<Value>, depth: int, maxDepth: Option<int>)
    ensures SimplifyAll(items, depth, maxDepth).Ok?
        <==> forall i :: 0 <= i < |items| ==> SimplifyNode(items[i], depth, maxDepth).Ok?
    ensures SimplifyAll(items, depth, maxDepth).Ok? ==>
      SimplifyAll(items, depth, maxDepth).value == Somes(Reductions(items, depth, maxDepth))
    ensures SimplifyAll(items, depth, maxDepth).Err? ==>
      exists i :: 0 <= i < |items| && SimplifyNode(items[i], depth, maxDepth) == Err(SimplifyAll(items, depth, maxDepth).error)
        && forall j :: 0 <= j < i ==> SimplifyNode(items[j], depth, maxDepth).Ok?
  {
    if forall i :: 0 <= i < |items| ==> SimplifyNode(items[i], depth, maxDepth).Ok? {
      SimplifyAllSucceeds(items, depth, maxDepth);
    }
    if SimplifyAll(items, depth, maxDepth).Ok? {
      SimplifyAllEach(items, depth, maxDepth);
    }
    if SimplifyAll(items, depth, maxDepth).Err? {
      var i := SimplifyAllRaises(items, depth, maxDepth);
    }
  }

  /** A list reduces only when each of its elements does. */
  lemma {:induction false} SimplifyAllEach(items: seq<Value>, depth: int, maxDepth: Option<int>)
    requires SimplifyAll(items, depth, maxDepth).Ok?
    ensures forall i :: 0 <= i < |items| ==> SimplifyNode(items[i], depth, maxDepth).Ok?
  {
    forall i | 0 <= i < |items|
      ensures SimplifyNode(items[i], depth, maxDepth).Ok?
    {
      SimplifyAllAt(items, i, depth, maxDepth);
    }
  }

  lemma {:induction false} SimplifyAllAt(items: seq<Value>, i: nat, depth: int, maxDepth: Option<int>)
    requires i < |items| && SimplifyAll(items, depth, maxDepth).Ok?
    ensures SimplifyNode(items[i], depth, maxDepth).Ok?
    decreases i
  {
    SimplifyAllFirst(items, depth, maxDepth);
    if i > 0 {
      SimplifyAllAt(items[1..], i - 1, depth, maxDepth);
      assert items[1..][i - 1] == items[i];
    }
  }

  /** A list that reduces has a first element and a rest that reduce. */
  lemma SimplifyAllFirst(items: seq<Value>, depth: int, maxDepth: Option<int>)
    requires items != [] && SimplifyAll(items, depth, maxDepth).Ok?
    ensures SimplifyNode(items[0], depth, maxDepth).Ok? && SimplifyAll(items[1..], depth, maxDepth).Ok?
    ensures SimplifyAll(items, depth, maxDepth).value
         == OptionSeq(SimplifyNode(items[0], depth, maxDepth).value) + SimplifyAll(items[1..], depth, maxDepth).value
  {
  }

  /** When every child reduces, the list reduces to the present results in order. */
  lemma {:induction false} SimplifyAllSucceeds(items: seq<Value>, depth: int, maxDepth: Option<int>)
    requires forall i :: 0 <= i < |items| ==> SimplifyNode(items[i], depth, maxDepth).Ok?
    ensures SimplifyAll(items, depth, maxDepth) == Ok(Somes(Reductions(items, depth, maxDepth)))
  {
    if items != [] {
      var rest := items[1..];
      forall i | 0 <= i < |rest|
        ensures SimplifyNode(rest[i], depth, maxDepth).Ok?
      {
        assert rest[i] == items[i + 1];
      }
      SimplifyAllSucceeds(rest, depth, maxDepth);
      var rs := Reductions(items, depth, maxDepth);
      assert rs[1..] == Reductions(rest, depth, maxDepth);
    }
  }

  /** When a list raises, this is the first child that raises, with that error. */
  lemma SimplifyAllRaises(items: seq<Value>, depth: int, maxDepth: Option<int>) returns (i: nat)
    requires SimplifyAll(items, depth, maxDepth).Err?
    ensures i < |items| && SimplifyNode(items[i], depth, maxDepth) == Err(SimplifyAll(items, depth, maxDepth).error)
    ensures forall j :: 0 <= j < i ==> SimplifyNode(items[j], depth, maxDepth).Ok?
  {
    i := FirstRaise(items, depth, maxDepth);
    SimplifyAllEach(items[..i], depth, maxDepth);
    forall j | 0 <= j < i
      ensures SimplifyNode(items[j], depth, maxDepth).Ok?
    {
      assert items[..i][j] == items[j];
    }
  }

  /** The child that raises, with every child before it reducing. */
  lemma {:induction false} FirstRaise(items: seq<Value>, depth: int, maxDepth: Option<int>) returns (i: nat)
    requires SimplifyAll(items, depth, maxDepth).Err?
    ensures i < |items| && SimplifyNode(items[i], depth, maxDepth) == Err(SimplifyAll(items, depth, maxDepth).error)
    ensures SimplifyAll(items[..i], depth, maxDepth).Ok?
  {
    SimplifyAllFails(items, depth, maxDepth);
    if SimplifyNode(items[0], depth, maxDepth).Err? {
      i := 0;
      assert items[..0] == [];
    } else {
      var k := FirstRaise(items[1..], depth, maxDepth);
      i := k + 1;
      assert items[i] == items[1..][k];
      var p := items[..i];
      assert p[0] == items[0] && p[1..] == items[1..][..k];
      SimplifyAllJoin(p, depth, maxDepth);
    }
  }

  /** A list whose first element and rest reduce reduces. */
  lemma SimplifyAllJoin(items: seq<Value>, depth: int, maxDepth: Option<int>)
    requires items != [] && SimplifyNode(items[0], depth, maxDepth).Ok? && SimplifyAll(items[1..], depth, maxDepth).Ok?
    ensures SimplifyAll(items, depth, maxDepth).Ok?
  {
  }

  /** A list that raises raises in its first element, or else in its rest, with the same error. */
  lemma SimplifyAllFails(items: seq<Value>, depth: int, maxDepth: Option<int>)
    requires SimplifyAll(items, depth, maxDepth).Err?
    ensures items != []
    ensures SimplifyNode(items[0], depth, maxDepth).Err? ==>
      SimplifyAll(items, depth, maxDepth).error == SimplifyNode(items[0], depth, maxDepth).error
    ensures SimplifyNode(items[0], depth, maxDepth).Ok? ==>
      SimplifyAll(items[1..], depth, maxDepth) == Err(SimplifyAll(items, depth, maxDepth).error)
  {
  }

  /** Every element of the list is a string. */
  predicate AllStrings(items: seq<Value>) {
    forall i :: 0 <= i < |items| ==> items[i].Str?
  }

  lemma {:induction false} StringChildren(items: seq<Value>, depth: int, maxDepth: Option<int>)
    requires AllStrings(items)
    ensures SimplifyAll(items, depth, maxDepth) == LeafChildren(|items|, depth, maxDepth)
  {
    if items != [] {
      assert items[0].Str? && AllStrings(items[1..]);
      StringChildren(items[1..], depth, maxDepth);
      if Pruned(depth, maxDepth) {
        assert SimplifyNode(items[0], depth, maxDepth) == Ok(None);
        assert OptionSeq(None) + [] == [];
      } else {
        assert SimplifyNode(items[0], depth, maxDepth) == Err(AttributeError);
      }
    }
  }

  /**
   * `SimplifyChildren` is the Python `for` loop over whatever `children`
   * holds: list items, dict keys or characters, each reduced in turn.
   */
  lemma IterationAgrees(children: Value, depth: int, maxDepth: Option<int>)
    ensures Iterate(children).Err? ==> SimplifyChildren(children, depth, maxDepth) == Err(Iterate(children).error)
    ensures Iterate(children).Ok? ==>
      SimplifyChildren(children, depth, maxDepth) == SimplifyAll(Iterate(children).value, depth, maxDepth)
  {
    if children.Obj? || children.Str? {
      StringChildren(Iterate(children).value, depth, maxDepth);
    }
  }

  // ---------------------------------------------------------------------
  // Depth limit
  // ---------------------------------------------------------------------

  /** Every node of the reduced tree `v`, placed at `depth`, lies at depth `limit` or above. */
  ghost predicate WithinDepth(v: Value, depth: int, limit: int)
    decreases v
  {
    && depth <= limit
    && (v.Obj? ==>
          match Get(v.fields, "children")
          case None => true
          case Some(c) => c.Arr? ==> forall i :: 0 <= i < |c.items| ==> WithinDepth(c.items[i], depth + 1, limit))
  }

  /** With a limit, a kept node and all of its reduced descendants lie within it. */
  lemma {:induction false} NodeWithinDepth(node: Value, depth: int, limit: int)
    requires SimplifyNode(node, depth, Some(limit)).Ok? && SimplifyNode(node, depth, Some(limit)).value.Some?
    ensures WithinDepth(SimplifyNode(node, depth, Some(limit)).value.value, depth, limit)
    decreases node, 1
  {
    KeptShape(node, depth, Some(limit));
    SurvivorsWithinDepth(node, depth, limit);
    KidsWithinDepth(node.fields, ReducedChildren(node.fields, depth, Some(limit)), depth, limit);
  }

  /** The surviving children of a kept node lie one level further down, within the limit. */
  lemma {:induction false} SurvivorsWithinDepth(node: Value, depth: int, limit: int)
    requires node.Obj?
    requires Has(node.fields, "children") ==> SimplifyChildren(GetOr(node.fields, "children", Null), depth + 1, Some(limit)).Ok?
    ensures var kids := ReducedChildren(node.fields, depth, Some(limit));
      forall j :: 0 <= j < |kids| ==> WithinDepth(kids[j], depth + 1, limit)
    decreases node, 0
  {
    var fs := node.fields;
    if Get(fs, "children").Some? {
      ChildrenWithinDepth(Get(fs, "children").value, depth + 1, limit);
    }
  }

  /** A reduced node within the limit whose children lie within it lies within it. */
  lemma KidsWithinDepth(fs: Fields, kids: seq<Value>, depth: int, limit: int)
    requires depth <= limit
    requires forall j :: 0 <= j < |kids| ==> WithinDepth(kids[j], depth + 1, limit)
    ensures WithinDepth(WithChildren(fs, kids), depth, limit)
  {
    MembersOf(fs, kids, "children");
  }

  lemma {:induction false} ChildrenWithinDepth(children: Value, depth: int, limit: int)
    requires SimplifyChildren(children, depth, Some(limit)).Ok?
    ensures forall j :: 0 <= j < |SimplifyChildren(children, depth, Some(limit)).value| ==>
      WithinDepth(SimplifyChildren(children, depth, Some(limit)).value[j], depth, limit)
    decreases children
  {
    if children.Arr? {
      AllWithinDepth(children.items, depth, limit);
    }
  }

  lemma {:induction false} AllWithinDepth(items: seq<Value>, depth: int, limit: int)
    requires SimplifyAll(items, depth, Some(limit)).Ok?
    ensures forall j :: 0 <= j < |SimplifyAll(items, depth, Some(limit)).value| ==>
      WithinDepth(SimplifyAll(items, depth, Some(limit)).value[j], depth, limit)
    decreases items
  {
    if items != [] {
      SimplifyAllFirst(items, depth, Some(limit));
      var first := SimplifyNode(items[0], depth, Some(limit)).value;
      if first.Some? {
        NodeWithinDepth(items[0], depth, limit);
      }
      AllWithinDepth(items[1..], depth, limit);
      ConcatWithinDepth(OptionSeq(first), SimplifyAll(items[1..], depth, Some(limit)).value, depth, limit);
    }
  }

  /** Joining two lists of nodes within the limit gives a list of nodes within it. */
  lemma ConcatWithinDepth(a: seq<Value>, b: seq<Value>, depth: int, limit: int)
    requires forall i :: 0 <= i < |a| ==> WithinDepth(a[i], depth, limit)
    requires forall i :: 0 <= i < |b| ==> WithinDepth(b[i], depth, limit)
    ensures forall i :: 0 <= i < |a + b| ==> WithinDepth((a + b)[i], depth, limit)
  {
  }

  /** The top-level nodes of a reduced response. */
  function NodesOf(r: Value): seq<Value> {
    if r.Obj? && Get(r.fields, "nodes").Some? && Get(r.fields, "nodes").value.Arr?
    then Get(r.fields, "nodes").value.items
    else []
  }

  lemma {:induction false} EntriesWithinDepth(entries: Fields, limit: int)
    requires EntryNodes(entries, Some(limit)).Ok?
    ensures forall j :: 0 <= j < |EntryNodes(entries, Some(limit)).value| ==>
      WithinDepth(EntryNodes(entries, Some(limit)).value[j], 0, limit)
  {
    if entries != [] {
      EntryNodesFirst(entries, Some(limit));
      var first := EntryNode(entries[0].1, Some(limit)).value;
      if first.Some? {
        NodeWithinDepth(Subscript(entries[0].1, "document").value, 0, limit);
      }
      EntriesWithinDepth(entries[1..], limit);
      ConcatWithinDepth(OptionSeq(first), EntryNodes(entries[1..], Some(limit)).value, 0, limit);
    }
  }

  /**
   * With `max_depth = limit`, every node of the reduced response sits at
   * nesting depth `limit` or less, top-level nodes counting as depth 0.
   */
  lemma ResponseWithinDepth(data: Value, limit: int)
    requires ProcessFigmaResponse(data, Some(limit)).Ok?
    ensures var nodes := NodesOf(ProcessFigmaResponse(data, Some(limit)).value);
      forall j :: 0 <= j < |nodes| ==> WithinDepth(nodes[j], 0, limit)
  {
    var fs := data.fields;
    var nodes := TopLevelNodes(fs, Some(limit)).value;
    LayoutNodes(Metadata(fs), Arr(nodes), GetOr(fs, "components", Obj([])), GetOr(fs, "styles", Obj([])),
                Obj([("styles", Obj([]))]));
    TopLevelWithinDepth(fs, limit);
  }

  /** The top-level nodes of either shape are within the limit. */
  lemma TopLevelWithinDepth(fs: Fields, limit: int)
    requires TopLevelNodes(fs, Some(limit)).Ok?
    ensures var nodes := TopLevelNodes(fs, Some(limit)).value;
      forall j :: 0 <= j < |nodes| ==> WithinDepth(nodes[j], 0, limit)
  {
    match Get(fs, "document")
    case Some(root) =>
      if In("children", root) == Ok(true) {
        AllWithinDepth(Iterate(Subscript(root, "children").value).value, 0, limit);
      }
    case None =>
      if Get(fs, "nodes").Some? {
        EntriesWithinDepth(Get(fs, "nodes").value.fields, limit);
      }
  }

  // ---------------------------------------------------------------------
  // Well-shaped input never raises
  // ---------------------------------------------------------------------

  /** A dict whose `children`, when present, is a list of such dicts. */
  ghost predicate IsTree(v: Value)
    decreases v
  {
    && v.Obj?
    && match Get(v.fields, "children")
       case None => true
       case Some(c) => c.Arr? && forall i :: 0 <= i < |c.items| ==> IsTree(c.items[i])
  }

  /** A tree reduces without an exception, whatever the depth and the limit. */
  lemma {:induction false} TreeReduces(node: Value, depth: int, maxDepth: Option<int>)
    requires IsTree(node)
    ensures SimplifyNode(node, depth, maxDepth).Ok?
    decreases node
  {
    if !Pruned(depth, maxDepth) && Visible(node.fields) && Get(node.fields, "children").Some? {
      TreesReduce(Get(node.fields, "children").value.items, depth + 1, maxDepth);
    }
  }

  lemma {:induction false} TreesReduce(items: seq<Value>, depth: int, maxDepth: Option<int>)
    requires forall i :: 0 <= i < |items| ==> IsTree(items[i])
    ensures SimplifyAll(items, depth, maxDepth).Ok?
    decreases items
  {
    if items != [] {
      TreeReduces(items[0], depth, maxDepth);
      TreesReduce(items[1..], depth, maxDepth);
    }
  }

  /** A whole-file response (a tree under `document`) or a node-list response (dicts, each with an optional tree). */
  ghost predicate IsResponse(data: Value) {
    && data.Obj?
    && match Get(data.fields, "document")
       case Some(root) => IsTree(root)
       case None =>
         match Get(data.fields, "nodes")
         case None => true
         case Some(n) => n.Obj? && forall i :: 0 <= i < |n.fields| ==> IsEntry(n.fields[i].1)
  }

  ghost predicate IsEntry(entry: Value) {
    entry.Obj? && (Has(entry.fields, "document") ==> IsTree(GetOr(entry.fields, "document", Null)))
  }

  lemma {:induction false} EntriesReduce(entries: Fields, maxDepth: Option<int>)
    requires forall i :: 0 <= i < |entries| ==> IsEntry(entries[i].1)
    ensures EntryNodes(entries, maxDepth).Ok?
  {
    if entries != [] {
      var rest := entries[1..];
      if Has(entries[0].1.fields, "document") {
        TreeReduces(GetOr(entries[0].1.fields, "document", Null), 0, maxDepth);
      }
      EntryContributes(entries[0].1.fields, maxDepth);
      forall i | 0 <= i < |rest|
        ensures IsEntry(rest[i].1)
      {
        assert rest[i] == entries[i + 1];
      }
      EntriesReduce(rest, maxDepth);
      EntryNodesJoin(entries, maxDepth);
    }
  }

  /** Reducing a well-shaped response never raises. */
  lemma ResponsesReduce(data: Value, maxDepth: Option<int>)
    requires IsResponse(data)
    ensures ProcessFigmaResponse(data, maxDepth).Ok?
  {
    var fs := data.fields;
    match Get(fs, "document")
    case Some(root) =>
      DocumentReduces(root, maxDepth);
    case None =>
      if Get(fs, "nodes").Some? {
        EntriesReduce(Get(fs, "nodes").value.fields, maxDepth);
      }
  }

  /** The children of a tree under `document` reduce without an exception. */
  lemma DocumentReduces(root: Value, maxDepth: Option<int>)
    requires IsTree(root)
    ensures DocumentNodes(root, maxDepth).Ok?
  {
    if Get(root.fields, "children").Some? {
      TreesReduce(Get(root.fields, "children").value.items, 0, maxDepth);
    }
  }

  // ---------------------------------------------------------------------
  // The response level
  // ---------------------------------------------------------------------

  /**
   * The reduced response has the members `metadata`, `nodes`, `components`,
   * `styles` and `globalVars`, in that order.
   */
  lemma ResponseMembers(data: Value, maxDepth: Option<int>)
    requires ProcessFigmaResponse(data, maxDepth).Ok?
    ensures Keys(ProcessFigmaResponse(data, maxDepth).value.fields)
         == ["metadata", "nodes", "components", "styles", "globalVars"]
  {
    var fs := data.fields;
    var nodes := TopLevelNodes(fs, maxDepth).value;
    assert ProcessFigmaResponse(data, maxDepth).value == Reduced(fs, nodes);
    ReducedMembers(Metadata(fs), Arr(nodes), GetOr(fs, "components", Obj([])), GetOr(fs, "styles", Obj([])),
                   Obj([("styles", Obj([]))]));
  }

  lemma ReducedMembers(m: Value, n: Value, c: Value, st: Value, g: Value)
    ensures Keys([("metadata", m), ("nodes", n), ("components", c), ("styles", st), ("globalVars", g)])
         == ["metadata", "nodes", "components", "styles", "globalVars"]
  {
    var r := [("metadata", m), ("nodes", n), ("components", c), ("styles", st), ("globalVars", g)];
    assert Keys(r) == [r[0].0] + Keys(r[1..]);
    assert Keys(r[1..]) == [r[1].0] + Keys(r[2..]);
    assert Keys(r[2..]) == [r[2].0] + Keys(r[3..]);
    assert Keys(r[3..]) == [r[3].0] + Keys(r[4..]);
    assert Keys(r[4..]) == [r[4].0] + Keys(r[5..]);
  }

  /**
   * Three response members are copied verbatim into `metadata` (`null` when
   * absent), `components` and `styles` are passed through (default `{}`),
   * `globalVars` is always `{"styles": {}}`, and `nodes` holds the top-level nodes.
   */
  lemma ResponseValues(data: Value, maxDepth: Option<int>)
    requires ProcessFigmaResponse(data, maxDepth).Ok?
    ensures var fs, r := data.fields, ProcessFigmaResponse(data, maxDepth).value.fields;
      && Get(r, "metadata") == Some(Obj([("name", GetOr(fs, "name", Null)),
                                         ("lastModified", GetOr(fs, "lastModified", Null)),
                                         ("thumbnailUrl", GetOr(fs, "thumbnailUrl", Null))]))
      && Get(r, "nodes") == Some(Arr(TopLevelNodes(fs, maxDepth).value))
      && Get(r, "components") == Some(if Has(fs, "components") then GetOr(fs, "components", Null) else Obj([]))
      && Get(r, "styles") == Some(if Has(fs, "styles") then GetOr(fs, "styles", Null) else Obj([]))
      && Get(r, "globalVars") == Some(Obj([("styles", Obj([]))]))
  {
    ReducedValues(data.fields, TopLevelNodes(data.fields, maxDepth).value);
  }

  lemma ReducedValues(fs: Fields, nodes: seq<Value>)
    ensures var r := Reduced(fs, nodes).fields;
      && Get(r, "metadata") == Some(Metadata(fs))
      && Get(r, "nodes") == Some(Arr(nodes))
      && Get(r, "components") == Some(GetOr(fs, "components", Obj([])))
      && Get(r, "styles") == Some(GetOr(fs, "styles", Obj([])))
      && Get(r, "globalVars") == Some(Obj([("styles", Obj([]))]))
  {
    var r := Reduced(fs, nodes).fields;
    var m, n, c, st, g := Metadata(fs), Arr(nodes), GetOr(fs, "components", Obj([])),
      GetOr(fs, "styles", Obj([])), Obj([("styles", Obj([]))]);
    assert r == [("metadata", m), ("nodes", n), ("components", c), ("styles", st), ("globalVars", g)];
    LayoutMetadata(m, n, c, st, g);
    LayoutNodes(m, n, c, st, g);
    LayoutComponents(m, n, c, st, g);
    LayoutStyles(m, n, c, st, g);
    LayoutGlobalVars(m, n, c, st, g);
  }

  lemma LayoutMetadata(m: Value, n: Value, c: Value, st: Value, g: Value)
    ensures Get([("metadata", m), ("nodes", n), ("components", c), ("styles", st), ("globalVars", g)], "metadata") == Some(m)
  {
  }

  lemma LayoutNodes(m: Value, n: Value, c: Value, st: Value, g: Value)
    ensures Get([("metadata", m), ("nodes", n), ("components", c), ("styles", st), ("globalVars", g)], "nodes") == Some(n)
  {
  }

  lemma LayoutComponents(m: Value, n: Value, c: Value, st: Value, g: Value)
    ensures Get([("metadata", m), ("nodes", n), ("components", c), ("styles", st), ("globalVars", g)], "components") == Some(c)
  {
  }

  lemma LayoutStyles(m: Value, n: Value, c: Value, st: Value, g: Value)
    ensures Get([("metadata", m), ("nodes", n), ("components", c), ("styles", st), ("globalVars", g)], "styles") == Some(st)
  {
    var r := [("metadata", m), ("nodes", n), ("components", c), ("styles", st), ("globalVars", g)];
    assert Get(r, "styles") == Get(r[1..], "styles");
    assert Get(r[1..], "styles") == Get(r[1..][1..], "styles");
    assert Get(r[1..][1..], "styles") == Get(r[1..][1..][1..], "styles");
    assert Get(r[1..][1..][1..], "styles") == Some(st);
  }

  lemma LayoutGlobalVars(m: Value, n: Value, c: Value, st: Value, g: Value)
    ensures Get([("metadata", m), ("nodes", n), ("components", c), ("styles", st), ("globalVars", g)], "globalVars") == Some(g)
  {
    var r := [("metadata", m), ("nodes", n), ("components", c), ("styles", st), ("globalVars", g)];
    assert Get(r, "globalVars") == Get(r[1..], "globalVars");
    assert Get(r[1..], "globalVars") == Get(r[1..][1..], "globalVars");
    assert Get(r[1..][1..], "globalVars") == Get(r[1..][1..][1..], "globalVars");
    assert Get(r[1..][1..][1..], "globalVars") == Get(r[1..][1..][1..][1..], "globalVars");
    assert Get(r[1..][1..][1..][1..], "globalVars") == Some(g);
  }

  /**
   * `document` wins over `nodes`, whatever its value; for a dict `document`,
   * its children are the top-level nodes, reduced at depth 0.
   */
  lemma DocumentFirst(fs: Fields, maxDepth: Option<int>)
    requires Get(fs, "document").Some?
    ensures TopLevelNodes(fs, maxDepth) == DocumentNodes(Get(fs, "document").value, maxDepth)
    ensures Get(fs, "document").value.Obj? ==>
      var root := Get(fs, "document").value.fields;
      TopLevelNodes(fs, maxDepth)
        == if !Has(root, "children") then Ok([])
           else
             var cs := GetOr(root, "children", Null);
             if cs.Arr? then SimplifyAll(cs.items, 0, maxDepth)
             else SimplifyChildren(cs, 0, maxDepth)
  {
    var doc := Get(fs, "document").value;
    if doc.Obj? && Has(doc.fields, "children") {
      IterationAgrees(GetOr(doc.fields, "children", Null), 0, maxDepth);
    }
  }

  /** With neither the `document` nor the `nodes` member, the node list is empty. */
  lemma NeitherShape(fs: Fields, maxDepth: Option<int>)
    requires !Has(fs, "document") && !Has(fs, "nodes")
    ensures TopLevelNodes(fs, maxDepth) == Ok([])
  {
  }

  /** An entry of a node-list response contributes its reduced `document`; one without is skipped. */
  lemma EntryContributes(entry: Fields, maxDepth: Option<int>)
    ensures EntryNode(Obj(entry), maxDepth)
         == if Has(entry, "document") then SimplifyNode(GetOr(entry, "document", Null), 0, maxDepth) else Ok(None)
  {
  }

  /** The reductions of the entries of a node-list response, defined where all of them succeed. */
  function EntryReductions(entries: Fields, maxDepth: Option<int>): (r: seq<Option<Value>>)
    requires forall i :: 0 <= i < |entries| ==> EntryNode(entries[i].1, maxDepth).Ok?
    ensures |r| == |entries| && forall i :: 0 <= i < |entries| ==> r[i] == EntryNode(entries[i].1, maxDepth).value
  {
    seq(|entries|, i requires 0 <= i < |entries| => EntryNode(entries[i].1, maxDepth).value)
  }

  /**
   * The entries of a node-list response are visited in mapping order: the
   * result is the contributions of all entries, in order, and an exception
   * in any entry is raised.
   */
  lemma EntryNodesFilters(entries: Fields, maxDepth: Option<int>)
    ensures EntryNodes(entries, maxDepth).Ok?
        <==> forall i :: 0 <= i < |entries| ==> EntryNode(entries[i].1, maxDepth).Ok?
    ensures EntryNodes(entries, maxDepth).Ok? ==>
      EntryNodes(entries, maxDepth).value == Somes(EntryReductions(entries, maxDepth))
  {
    if EntryNodes(entries, maxDepth).Ok? {
      forall i | 0 <= i < |entries|
        ensures EntryNode(entries[i].1, maxDepth).Ok?
      {
        EntryNodesAt(entries, i, maxDepth);
      }
    }
    if forall i :: 0 <= i < |entries| ==> EntryNode(entries[i].1, maxDepth).Ok? {
      EntryNodesSucceed(entries, maxDepth);
    }
  }

  /** An entry of a node list that reduces reduces. */
  lemma {:induction false} EntryNodesAt(entries: Fields, i: nat, maxDepth: Option<int>)
    requires i < |entries| && EntryNodes(entries, maxDepth).Ok?
    ensures EntryNode(entries[i].1, maxDepth).Ok?
    decreases i
  {
    EntryNodesFirst(entries, maxDepth);
    if i > 0 {
      EntryNodesAt(entries[1..], i - 1, maxDepth);
      assert entries[1..][i - 1] == entries[i];
    }
  }

  /** A node list that reduces has a first entry and a rest that reduce. */
  lemma EntryNodesFirst(entries: Fields, maxDepth: Option<int>)
    requires entries != [] && EntryNodes(entries, maxDepth).Ok?
    ensures EntryNode(entries[0].1, maxDepth).Ok? && EntryNodes(entries[1..], maxDepth).Ok?
    ensures EntryNodes(entries, maxDepth).value
         == OptionSeq(EntryNode(entries[0].1, maxDepth).value) + EntryNodes(entries[1..], maxDepth).value
  {
  }

  /** A node list whose first entry and rest reduce reduces. */
  lemma EntryNodesJoin(entries: Fields, maxDepth: Option<int>)
    requires entries != [] && EntryNode(entries[0].1, maxDepth).Ok? && EntryNodes(entries[1..], maxDepth).Ok?
    ensures EntryNodes(entries, maxDepth).Ok?
  {
  }

  /** When every entry reduces, the node list is their contributions in order. */
  lemma {:induction false} EntryNodesSucceed(entries: Fields, maxDepth: Option<int>)
    requires forall i :: 0 <= i < |entries| ==> EntryNode(entries[i].1, maxDepth).Ok?
    ensures EntryNodes(entries, maxDepth) == Ok(Somes(EntryReductions(entries, maxDepth)))
  {
    if entries != [] {
      var rest := entries[1..];
      forall i | 0 <= i < |rest|
        ensures EntryNode(rest[i].1, maxDepth).Ok?
      {
        assert rest[i] == entries[i + 1];
      }
      EntryNodesSucceed(rest, maxDepth);
      var rs := EntryReductions(entries, maxDepth);
      assert rs[1..] == EntryReductions(rest, maxDepth);
    }
  }

  // ---------------------------------------------------------------------
  // A decoded response reduces to a value the codec carries over
  // ---------------------------------------------------------------------

  lemma CopiedPlain(fs: Fields, key: string)
    requires Plain(Obj(fs))
    ensures var c := Copied(fs, key);
      DistinctKeys(c) && PlainMembers(c) && forall i :: 0 <= i < |c| ==> c[i].0 in {key}
  {
    PlainMember(fs, key, Null);
  }

  lemma TextPlain(fs: Fields)
    requires Plain(Obj(fs))
    ensures var t := TextMembers(fs);
      DistinctKeys(t) && PlainMembers(t) && forall i :: 0 <= i < |t| ==> t[i].0 in {"characters", "style"}
  {
    if Has(fs, "characters") {
      CopiedPlain(fs, "characters");
      CopiedPlain(fs, "style");
      JoinPlain(Copied(fs, "characters"), Copied(fs, "style"), {"characters"}, {"style"});
    }
  }

  lemma HeadPlain(fs: Fields)
    requires Plain(Obj(fs))
    ensures var h := Head(fs);
      DistinctKeys(h) && PlainMembers(h) && forall i :: 0 <= i < |h| ==> h[i].0 in HeadKeys
  {
    PlainMember(fs, "id", Null);
    PlainMember(fs, "name", Null);
    PlainMember(fs, "type", Null);
    assert Plain(Kind(fs));
    HeadLayout(GetOr(fs, "id", Null), GetOr(fs, "name", Null), Kind(fs));
  }

  lemma HeadLayout(a: Value, b: Value, c: Value)
    requires Plain(a) && Plain(b) && Plain(c)
    ensures var h := [("id", a), ("name", b), ("type", c)];
      DistinctKeys(h) && PlainMembers(h) && forall i :: 0 <= i < |h| ==> h[i].0 in HeadKeys
  {
  }

  /** The optional members of a reduced node have distinct keys, none of them a head key. */
  lemma TailPlain(fs: Fields, kids: seq<Value>)
    requires Plain(Obj(fs))
    requires forall j :: 0 <= j < |kids| ==> Plain(kids[j])
    ensures var t := Tail(fs, kids);
      && DistinctKeys(t) && PlainMembers(t)
      && forall i :: 0 <= i < |t| ==> t[i].0 in TailKeys
  {
    CopiedPlain(fs, "absoluteBoundingBox");
    TextPlain(fs);
    CopiedPlain(fs, "fills");
    CopiedPlain(fs, "componentId");
    KidsPlain(kids);
    TailJoin(Copied(fs, "absoluteBoundingBox"), TextMembers(fs), Copied(fs, "fills"), Copied(fs, "componentId"),
             if kids == [] then [] else [("children", Arr(kids))]);
  }

  /** The `children` member of a reduced node, present when some child survives. */
  lemma KidsPlain(kids: seq<Value>)
    requires forall j :: 0 <= j < |kids| ==> Plain(kids[j])
    ensures var ch: Fields := if kids == [] then [] else [("children", Arr(kids))];
      DistinctKeys(ch) && PlainMembers(ch) && forall i :: 0 <= i < |ch| ==> ch[i].0 in {"children"}
  {
    assert Plain(Arr(kids));
  }

  const TailKeys: set<string> := {"absoluteBoundingBox", "characters", "style", "fills", "componentId", "children"}

  lemma TailJoin(c1: Fields, t: Fields, c2: Fields, c3: Fields, ch: Fields)
    requires DistinctKeys(c1) && PlainMembers(c1) && forall i :: 0 <= i < |c1| ==> c1[i].0 in {"absoluteBoundingBox"}
    requires DistinctKeys(t) && PlainMembers(t) && forall i :: 0 <= i < |t| ==> t[i].0 in {"characters", "style"}
    requires DistinctKeys(c2) && PlainMembers(c2) && forall i :: 0 <= i < |c2| ==> c2[i].0 in {"fills"}
    requires DistinctKeys(c3) && PlainMembers(c3) && forall i :: 0 <= i < |c3| ==> c3[i].0 in {"componentId"}
    requires DistinctKeys(ch) && PlainMembers(ch) && forall i :: 0 <= i < |ch| ==> ch[i].0 in {"children"}
    ensures var r := c1 + t + c2 + c3 + ch;
      DistinctKeys(r) && PlainMembers(r) && forall i :: 0 <= i < |r| ==> r[i].0 in TailKeys
  {
    var k2 := {"absoluteBoundingBox", "characters", "style"};
    JoinPlain(c1, t, {"absoluteBoundingBox"}, {"characters", "style"});
    JoinPlain(c1 + t, c2, k2, {"fills"});
    JoinPlain(c1 + t + c2, c3, k2 + {"fills"}, {"componentId"});
    JoinPlain(c1 + t + c2 + c3, ch, k2 + {"fills", "componentId"}, {"children"});
  }

  /** A reduced node is plain when the raw node and the reduced children are: its keys are distinct. */
  lemma NodePlain(fs: Fields, kids: seq<Value>)
    requires Plain(Obj(fs))
    requires forall j :: 0 <= j < |kids| ==> Plain(kids[j])
    ensures Plain(WithChildren(fs, kids))
  {
    HeadPlain(fs);
    TailPlain(fs, kids);
    var h, t := Head(fs), Tail(fs, kids);
    HeadTailDisjoint();
    JoinPlain(h, t, HeadKeys, TailKeys);
    ObjPlain(h + t);
  }

  const HeadKeys: set<string> := {"id", "name", "type"}

  lemma HeadTailDisjoint()
    ensures HeadKeys !! TailKeys
  {
  }

  lemma ObjPlain(fs: Fields)
    requires DistinctKeys(fs) && PlainMembers(fs)
    ensures Plain(Obj(fs))
  {
  }

  /** A kept node of a plain tree is plain. */
  lemma {:induction false} SimplifiedPlain(node: Value, depth: int, maxDepth: Option<int>)
    requires Plain(node)
    requires SimplifyNode(node, depth, maxDepth).Ok? && SimplifyNode(node, depth, maxDepth).value.Some?
    ensures Plain(SimplifyNode(node, depth, maxDepth).value.value)
    decreases node, 1
  {
    KeptShape(node, depth, maxDepth);
    var fs := node.fields;
    if Get(fs, "children").Some? {
      PlainMember(fs, "children", Null);
      ChildrenPlain(Get(fs, "children").value, depth + 1, maxDepth);
    }
    NodePlain(fs, ReducedChildren(fs, depth, maxDepth));
  }

  lemma {:induction false} ChildrenPlain(children: Value, depth: int, maxDepth: Option<int>)
    requires Plain(children)
    requires SimplifyChildren(children, depth, maxDepth).Ok?
    ensures forall j :: 0 <= j < |SimplifyChildren(children, depth, maxDepth).value| ==>
      Plain(SimplifyChildren(children, depth, maxDepth).value[j])
    decreases children, 0
  {
    if children.Arr? {
      AllPlain(children.items, depth, maxDepth);
    }
  }

  lemma {:induction false} AllPlain(items: seq<Value>, depth: int, maxDepth: Option<int>)
    requires forall i :: 0 <= i < |items| ==> Plain(items[i])
    requires SimplifyAll(items, depth, maxDepth).Ok?
    ensures forall j :: 0 <= j < |SimplifyAll(items, depth, maxDepth).value| ==>
      Plain(SimplifyAll(items, depth, maxDepth).value[j])
    decreases items
  {
    if items != [] {
      var rest := items[1..];
      SimplifyAllFirst(items, depth, maxDepth);
      var first := SimplifyNode(items[0], depth, maxDepth).value;
      if first.Some? {
        SimplifiedPlain(items[0], depth, maxDepth);
      }
      forall i | 0 <= i < |rest|
        ensures Plain(rest[i])
      {
        assert rest[i] == items[i + 1];
      }
      AllPlain(rest, depth, maxDepth);
      ConcatPlain(OptionSeq(first), SimplifyAll(rest, depth, maxDepth).value);
    }
  }

  lemma {:induction false} EntriesPlain(entries: Fields, maxDepth: Option<int>)
    requires PlainMembers(entries)
    requires EntryNodes(entries, maxDepth).Ok?
    ensures forall j :: 0 <= j < |EntryNodes(entries, maxDepth).value| ==> Plain(EntryNodes(entries, maxDepth).value[j])
  {
    if entries != [] {
      var rest := entries[1..];
      EntryNodesFirst(entries, maxDepth);
      var first := EntryNode(entries[0].1, maxDepth).value;
      if first.Some? {
        PlainMember(entries[0].1.fields, "document", Null);
        SimplifiedPlain(Subscript(entries[0].1, "document").value, 0, maxDepth);
      }
      assert PlainMembers(rest) by {
        forall i | 0 <= i < |rest|
          ensures Plain(rest[i].1)
        {
          assert rest[i] == entries[i + 1];
        }
      }
      EntriesPlain(rest, maxDepth);
      ConcatPlain(OptionSeq(first), EntryNodes(rest, maxDepth).value);
    }
  }

  /** Joining two lists of plain values gives a list of plain values. */
  lemma ConcatPlain(a: seq<Value>, b: seq<Value>)
    requires forall i :: 0 <= i < |a| ==> Plain(a[i])
    requires forall i :: 0 <= i < |b| ==> Plain(b[i])
    ensures forall i :: 0 <= i < |a + b| ==> Plain((a + b)[i])
  {
  }

  lemma TopLevelPlain(fs: Fields, maxDepth: Option<int>)
    requires Plain(Obj(fs))
    requires TopLevelNodes(fs, maxDepth).Ok?
    ensures var nodes := TopLevelNodes(fs, maxDepth).value;
      forall j :: 0 <= j < |nodes| ==> Plain(nodes[j])
  {
    match Get(fs, "document")
    case Some(root) =>
      PlainMember(fs, "document", Null);
      if In("children", root) == Ok(true) {
        PlainMember(root.fields, "children", Null);
        AllPlain(Iterate(Subscript(root, "children").value).value, 0, maxDepth);
      }
    case None =>
      if Get(fs, "nodes").Some? {
        PlainMember(fs, "nodes", Null);
        EntriesPlain(Get(fs, "nodes").value.fields, maxDepth);
      }
  }

  /**
   * The reduction of a plain response is plain: `json.dumps` and then
   * `json.loads` give it back unchanged.
   */
  lemma ResponsePlain(data: Value, maxDepth: Option<int>)
    requires Plain(data)
    requires ProcessFigmaResponse(data, maxDepth).Ok?
    ensures Plain(ProcessFigmaResponse(data, maxDepth).value)
  {
    var fs := data.fields;
    var nodes := TopLevelNodes(fs, maxDepth).value;
    assert ProcessFigmaResponse(data, maxDepth).value == Reduced(fs, nodes);
    TopLevelPlain(fs, maxDepth);
    MetadataPlain(fs);
    PlainMember(fs, "components", Obj([]));
    PlainMember(fs, "styles", Obj([]));
    ReducedPlain(Metadata(fs), nodes, GetOr(fs, "components", Obj([])), GetOr(fs, "styles", Obj([])));
  }

  lemma MetadataPlain(fs: Fields)
    requires Plain(Obj(fs))
    ensures Plain(Metadata(fs))
  {
    PlainMember(fs, "name", Null);
    PlainMember(fs, "lastModified", Null);
    PlainMember(fs, "thumbnailUrl", Null);
    MetadataLayout(GetOr(fs, "name", Null), GetOr(fs, "lastModified", Null), GetOr(fs, "thumbnailUrl", Null));
  }

  lemma MetadataLayout(a: Value, b: Value, c: Value)
    requires Plain(a) && Plain(b) && Plain(c)
    ensures Plain(Obj([("name", a), ("lastModified", b), ("thumbnailUrl", c)]))
  {
  }

  lemma ReducedPlain(m: Value, nodes: seq<Value>, c: Value, st: Value)
    requires Plain(m) && Plain(c) && Plain(st)
    requires forall j :: 0 <= j < |nodes| ==> Plain(nodes[j])
    ensures Plain(Obj([("metadata", m), ("nodes", Arr(nodes)), ("components", c), ("styles", st),
                       ("globalVars", Obj([("styles", Obj([]))]))]))
  {
    var g := Obj([("styles", Obj([]))]);
    assert Plain(Arr(nodes));
    assert Plain(g);
    ReducedKeys(m, Arr(nodes), c, st, g);
  }

  /** The five members of a reduced response have distinct keys. */
  lemma ReducedKeys(m: Value, n: Value, c: Value, st: Value, g: Value)
    ensures DistinctKeys([("metadata", m), ("nodes", n), ("components", c), ("styles", st), ("globalVars", g)])
  {
  }
}
