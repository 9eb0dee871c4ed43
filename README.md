# Figma local cache: the decision logic, in Dafny

This project models the decision logic of a local cache for Figma design data. The cache has three parts:

- **The tree reducer** (`simplify_figma_node`, `process_figma_response`). It turns the Figma REST API's JSON document tree into a smaller tree. It prunes nodes by depth and by visibility, renames `VECTOR` to `IMAGE-SVG`, and copies only a few keys. It also accepts both response shapes: the whole file (`document`) or selected nodes (`nodes`).
- **The two storage back-ends** behind one get/upsert contract:
  - the MySQL table `figma_data`: look up by (`file_key`, `node_id` or NULL), then update the row in place or insert a new one;
  - the file-system store: one JSON file per key, named after a sanitised node id.
- **The cache-or-fetch tool** `get_figma_data_tool`, plus the request partitioning and result ordering of `download_figma_images_tool`.

The modules follow the program's structure:

| file | module | models |
|---|---|---|
| wrappers.dfy | `Wrappers` | `Option` and `Result` |
| seqs.dfy | `Seqs` | list comprehensions with a condition (`[x for x in xs if p(x)]`), and the order and multiplicity they keep |
| json.dfy | `Json` | JSON values, with their objects as ordered member lists, plus the Python built-ins applied to them (`dict.get`, `in`, `d[k]`, `for` iteration, truthiness) and the exceptions they raise |
| reducer.dfy | `Reducer` | backend/app/services/figma.py, lines 54-132 |
| timestamps.dfy | `Timestamps` | `strptime` with the fixed pattern `%Y-%m-%dT%H:%M:%SZ`, and `isoformat`/`fromisoformat` for second-precision datetimes |
| models.dfy | `Models` | the `FigmaData` row, and the JSON text codec |
| codec_witness.dfy | `CodecWitness` | a concrete codec that meets `RoundTrips`, so that the lemmas assuming it do not assume the impossible |
| paths.dfy | `Paths` | POSIX `os.path.join` |
| sql_repository.dfy | `SqlRepository` | `MySQLRepository`: a class over the table's rows |
| file_repository.dfy | `FileRepository` | `FileSystemRepository`: `_get_filename` and a class over the folder's files |
| cache_tool.dfy | `CacheTool` | `get_figma_data_tool` |
| image_tool.dfy | `ImageTool` | `download_figma_images_tool`, with the network calls passed in |

Python semantics are modelled explicitly, not assumed away:

- A dict is an ordered list of members, and a lookup finds the first member with the key.
- A missing key gives `KeyError`, a call on a non-dict gives `AttributeError`, and iterating a non-iterable gives `TypeError`. Each of these is a `Result` error, not a precondition.
- Truthiness follows Python, so an empty string counts as "absent" wherever the source tests `if node_id:`.

The table is a sequence of rows in insertion order, not a map. The schema has no unique constraint on (`file_key`, `node_id`), and `query.first()` returns the first matching row. That matters in one case:

- A node id of `""` is looked up as `node_id IS NULL`, because `""` is falsy.
- But the row is inserted with `node_id = ""`.
- So, when the file key has no row with `node_id` NULL, every call with `""` inserts a new row that no later lookup finds. `EmptyIdGrows` and `EmptyIdRefetches` prove this.
- "At most one row per key" (`TableInvariant`) holds for every other node id, and every save preserves it.

The remote calls, the clock and `json.dumps`/`json.loads` are parameters:

- The fetch is a function from the request (`GetFile` or `GetFileNodes`) to a result.
- Render URLs, fill URLs and the image download are functions too.
- `now` is a `DateTime` argument.
- A Python `datetime` is always a real calendar moment; the model states that as `Timestamps.Valid`, required of the datetimes a caller passes in.
- The codec is a pair of functions. Where a property needs a faithful codec, the lemma assumes the predicate `RoundTrips` as a precondition: decoding gives back every encoded *plain* value. A plain value (`Json.Plain`) has no object with a repeated key and no NaN float. Those are the values `json.dumps` and `json.loads` carry over unchanged: a decoded object keeps only the last member under a key, and a NaN is not equal to itself. `CodecWitness.WitnessRoundTrips` builds a codec that meets `RoundTrips`.
- Numbers are Python's own: an `int` is an unbounded integer, and a `float` is the sign, exponent and fraction fields of its IEEE 754 double.

## Model

| member | source | states |
|---|---|---|
| Reducer.PrunedExactly | backend/app/services/figma.py:54-59 | A node reduces to None exactly when `max_depth` is set and `depth > max_depth`, or it is a dict whose `visible` is falsy; a missing `visible` counts as visible, so a node at `depth == max_depth` is kept |
| Reducer.KeptNode | backend/app/services/figma.py:61-99 | A kept node came from a visible dict within the depth limit. Each output key has the expected value: `id`/`name`/`type` copied, with `VECTOR` and only `VECTOR` renamed to `IMAGE-SVG`; `absoluteBoundingBox`, `characters`, `fills` and `componentId` iff present; `style` only with `characters`; `children` iff some child survives. No other key appears |
| Reducer.KeptKeys | backend/app/services/figma.py:61-99 | The members of a kept node come in a fixed order: `id`, `name`, `type`, then each of `absoluteBoundingBox`, `characters`, `style`, `fills`, `componentId` and `children` that holds a value, in that order |
| Reducer.MembersOf | backend/app/services/figma.py:62-97 | The output dict built from a node's members and its surviving children has exactly the expected member under every key, and only keys from the fixed output set |
| Reducer.SimplifyAllFilters | backend/app/services/figma.py:90-97 | The reduced children are the non-None reductions of the inputs at `depth+1`, in their original order; the loop fails iff some child's reduction raises, and it raises the first such error |
| Reducer.SomesMembers | backend/app/services/figma.py:91-97 | Dropping pruned children keeps exactly the present results, never grows the list, and leaves it empty iff every child was pruned (then `children` is omitted) |
| Reducer.IterationAgrees | backend/app/services/figma.py:92 | Looping over `children` raises iff the value is not iterable; otherwise it reduces whatever a Python `for` visits (list items, dict keys, the characters of a string) |
| Reducer.StringChildren | backend/app/services/figma.py:92-95 | Children that are strings (from iterating a dict or string) reduce without recursing into them |
| Reducer.NodeWithinDepth | backend/app/services/figma.py:55-95 | With `max_depth = m`, a node kept at depth `d` has every descendant at nesting depth at most `m` |
| Reducer.ResponseWithinDepth | backend/app/services/figma.py:115-130 | With `max_depth = m`, every node of the reduced response, counting top-level nodes as depth 0, sits at nesting depth at most `m` |
| Reducer.TreeReduces | backend/app/services/figma.py:54-99 | A well-formed node tree (dicts all the way down, `children` a list) is always reduced without raising |
| Reducer.ResponsesReduce | backend/app/services/figma.py:101-132 | A well-formed response with either shape is processed without raising |
| Reducer.ResponseMembers | backend/app/services/figma.py:103-113 | The result has exactly the keys `metadata`, `nodes`, `components`, `styles`, `globalVars`, in that order |
| Reducer.ResponseValues | backend/app/services/figma.py:103-113 | `metadata` copies `name`, `lastModified` and `thumbnailUrl` (absent gives `null`); `components` and `styles` pass through or default to `{}`; `globalVars` is `{"styles": {}}`; `nodes` holds the top-level reductions |
| Reducer.DocumentFirst | backend/app/services/figma.py:115-123 | With a `document` of any value, the nodes are what the document branch gives for it, whatever `nodes` holds; for a dict `document` they are the reductions of its `children` at depth 0, and `[]` without `children` |
| Reducer.NeitherShape | backend/app/services/figma.py:115-132 | With neither `document` nor `nodes`, the node list is empty |
| Reducer.EntryContributes | backend/app/services/figma.py:127-130 | An entry of `nodes` contributes the depth-0 reduction of its `document`, or nothing when it has none |
| Reducer.EntryNodesFilters | backend/app/services/figma.py:124-130 | The entries of `nodes` contribute their kept reductions in mapping order; the loop fails iff some entry raises |
| Reducer.ProcessFigmaResponse | backend/app/services/figma.py:101-132 | A processed response came from a dict and is a dict |
| Reducer.ResponsePlain | backend/app/services/figma.py:54-132 | The reduction of a plain response is plain: every reduced node has distinct keys, because it copies each key at most once, and every value it holds is copied from the plain input or built from plain parts |
| Reducer.SimplifyNode | backend/app/services/figma.py:54-99 | `simplify_figma_node` itself; what it does is stated by PrunedExactly, KeptNode, KeptKeys, NodeWithinDepth and TreeReduces |
| Reducer.SimplifyAll | backend/app/services/figma.py:90-97 | The children loop itself; what it does is stated by SimplifyAllFilters and SomesMembers |
| Reducer.DocumentNodes | backend/app/services/figma.py:115-123 | The `document` branch itself; what it does is stated by DocumentFirst and IterationAgrees |
| Reducer.EntryNodes | backend/app/services/figma.py:124-130 | The `nodes` branch itself; what it does is stated by EntryContributes and EntryNodesFilters |
| Reducer.TopLevelNodes | backend/app/services/figma.py:115-130 | The choice between the two response shapes; what it does is stated by DocumentFirst, NeitherShape and EntryNodesFilters |
| Reducer.Reduced | backend/app/services/figma.py:103-113 | The result dict itself; what it holds is stated by ResponseMembers and ResponseValues |
| Timestamps.FigmaTimestampRoundTrip | backend/app/services/mcp_tools.py:73-80 | The fixed pattern `%Y-%m-%dT%H:%M:%SZ` parses what it formats, and a string that parses is exactly the formatted form of its value |
| Timestamps.ParseWith | backend/app/services/mcp_tools.py:76-80 | The parser itself; a parsed value is always a real calendar moment, and which strings parse to what is stated by ParseExactly, FigmaTimestampRoundTrip and NoThirtiethOfFebruary |
| Timestamps.ParseExactly | backend/app/services/mcp_tools.py:76-80 | A string parses iff it is the formatted form of some valid datetime, and a string that parses is exactly the formatted form of the parsed value |
| Timestamps.NoThirtiethOfFebruary | backend/app/services/mcp_tools.py:76-80 | A well-shaped but impossible date fails to parse, and so is stored as NULL |
| Timestamps.FigmaTimestampExample | backend/app/services/mcp_tools.py:77-78 | The source's sample timestamp `2026-01-14T05:57:11Z` parses to that moment |
| Timestamps.IsoRoundTrip | backend/app/repository.py:97-101 | `fromisoformat(isoformat(t))` gives `t` back for every valid second-precision datetime |
| Timestamps.NumberPadded | backend/app/repository.py:118 | Zero-padding a number to a width it fits and reading the digits back gives the number |
| Timestamps.PaddedNumber | backend/app/repository.py:99 | Reading a digit string and padding it to its own width gives the string back |
| Models.PayloadDecodes | backend/app/repository.py:42 | With a faithful codec, a plain non-string payload is stored as text that decodes to the saved value; a string payload is stored verbatim, so decoding it parses its content |
| Paths.PathJoin | backend/app/repository.py:73 | An absolute second part replaces the folder, and the joined path always ends with the second part |
| SqlRepository.FirstMatch | backend/app/repository.py:31-37 | `first()` finds the first row in insertion order that matches `file_key` plus `node_id` when it is truthy, or `node_id IS NULL` otherwise; no match means no row matches |
| SqlRepository.MySqlRepository.GetData | backend/app/repository.py:31-37 | A returned row is in the table and matches the key; the result is absent iff no row matches |
| SqlRepository.MySqlRepository.SaveData | backend/app/repository.py:39-59 | The table after the save is the upsert of the encoded payload; the key invariant is preserved |
| SqlRepository.FigmaTable.Update | backend/app/repository.py:44-48 | Only the matched row changes: `data`, `depth`, `name`, `last_modified`, plus `updated_at` when a column changed |
| SqlRepository.FigmaTable.Add | backend/app/repository.py:49-58 | Exactly one row is appended, with a fresh id and both timestamps set to now |
| SqlRepository.SavedRow | backend/app/repository.py:39-59 | An existing row keeps its id, node id and `created_at` and gets the four new values, with `updated_at` refreshed iff the row changed; otherwise exactly one row is inserted with the next id; all other rows are unchanged |
| SqlRepository.SaveThenGet | backend/app/repository.py:39-59 | After a save, a lookup of the same key finds a row whose `data`, `name`, `depth` and `last_modified` are the saved ones; it finds nothing only for node id `""` saved without an earlier match |
| SqlRepository.SaveIdempotent | backend/app/repository.py:39-59 | For any node id other than `""`, repeating an identical save leaves the table exactly as the first left it, `updated_at` included |
| SqlRepository.Refreshed | backend/app/repository.py:44-48 | The update of a matched row itself; what it does is stated by SavedRow |
| SqlRepository.Saved | backend/app/repository.py:39-59 | The upsert itself; what it does is stated by SavedRow, SaveThenGet, SaveIdempotent and SavedKeepsInvariant |
| SqlRepository.TableInvariant | backend/app/models.py:9-11 | The key invariant itself; kept by SavedKeepsInvariant and ToolKeepsInvariant, broken on purpose by EmptyIdGrows |
| SqlRepository.EmptyIdGrows | backend/app/repository.py:31-58 | When the file key has no row with `node_id` NULL, saving twice under node id `""` inserts two rows with `node_id = ""`, and neither is ever found |
| SqlRepository.SavedKeepsInvariant | backend/app/models.py:9-11 | Every save keeps the ids distinct and below the next id, and keeps at most one row per key other than node id `""` |
| FileRepository.Sanitize | backend/app/repository.py:71 | The length is preserved, each of `< > : " / \ \| ? *` becomes `_`, every other character is unchanged, and no listed character remains |
| FileRepository.SameFileIff | backend/app/repository.py:66-73 | Within one file key, two node ids share a file iff their sanitised forms (with `ROOT` for a falsy id) agree |
| FileRepository.Collisions | backend/app/repository.py:68-73 | `"1:2"` and `"1_2"` share a file, and node ids `"ROOT"` and `""` share the file of an absent node id |
| FileRepository.KeyCollision | backend/app/repository.py:73 | Keys collide across file keys too: (`"a"`, `"b__ROOT"`) and (`"a__b"`, none) name the same file |
| FileRepository.KeyShift | backend/app/repository.py:66-73 | For every file key `k` and every `m` free of the replaced characters, node id `m__ROOT` under `k` names the same file as key `k__m` with no node id |
| FileRepository.ReadRecord | backend/app/repository.py:75-106 | A missing file reads as None, and a record is read exactly when the file exists, can be opened, parses, and holds a dict |
| FileRepository.FileSystemRepository.GetData | backend/app/repository.py:75-78 | A key whose file does not exist reads as None |
| FileRepository.FileSystemRepository.SaveData | backend/app/repository.py:108-124 | The key's file is replaced by the encoded record, and no other file changes |
| FileRepository.ContentMembers | backend/app/repository.py:113-121 | The written record holds the key, the unsanitised node id, name, depth, the `isoformat` of `last_modified` (or null) and the payload |
| FileRepository.ContentPlain | backend/app/repository.py:113-121 | The written dict has seven distinct keys and no float, so a faithful codec gives it back |
| FileRepository.GetFilename | backend/app/repository.py:66-73 | `_get_filename` itself; what it does is stated by Sanitize, SameFileIff, Collisions, KeyCollision and KeyShift |
| FileRepository.Wrapped | backend/app/repository.py:85-101 | `FileDataWrapper` itself; what it does is stated by WrappedFrom |
| FileRepository.Content | backend/app/repository.py:113-121 | The written dict itself; what it holds is stated by ContentMembers and ContentPlain |
| FileRepository.WriteThenRead | backend/app/repository.py:75-124 | Reading a written record back restores `file_key`, the original node id, `name`, `depth` and `data`, and re-parses `last_modified` to the saved datetime |
| FileRepository.WrappedFrom | backend/app/repository.py:85-101 | The wrapper reads each field with `get`, and turns a string `last_modified` into a datetime when `fromisoformat` accepts it |
| FileRepository.SaveThenRead | backend/app/repository.py:108-124 | After a save, every key sharing the file reads back the last saved record, and every other key reads what it did before: the last write wins and nothing is merged |
| FileRepository.CollisionReadBack | backend/app/repository.py:66-124 | After saving node `"1:2"`, a read of node `"1_2"` returns that record, with node id `"1:2"` |
| CacheTool.RequestFor | backend/app/services/mcp_tools.py:55-60 | The endpoint choice itself; which call each key makes is stated by HitServesCache |
| CacheTool.Tool | backend/app/services/mcp_tools.py:12-102 | The procedure itself, as a function of the table before the call; what it does is stated by HitServesCache, FailureKeepsTable, FetchStores, MissThenHit, EmptyIdRefetches, ForceWithoutRecord and ToolKeepsInvariant |
| CacheTool.Summary | backend/app/services/mcp_tools.py:71-80 | Reading `metadata` itself; what it gives is stated by SummaryOfResponse |
| CacheTool.LoadCached | backend/app/services/mcp_tools.py:38 | `json.loads(cached_item.data)` itself; its use is stated by HitServesCache and MissThenHit |
| CacheTool.StoredName | backend/app/services/mcp_tools.py:72 | The name column itself; its use is stated by FetchStores and SummaryOfResponse |
| CacheTool.StoredTimestamp | backend/app/services/mcp_tools.py:73-80 | A stored `last_modified` comes only from a string, and is a valid datetime |
| CacheTool.GetFigmaDataTool | backend/app/services/mcp_tools.py:12-102 | The result, the remote call made and the table left behind are those of the cache-or-fetch procedure |
| CacheTool.HitServesCache | backend/app/services/mcp_tools.py:24-38 | No fetch happens iff a row matches and `force_refresh` is false; then the result is `json.loads` of its data and the table is unchanged; otherwise the fetch is `get_file_nodes` with the node id when it is truthy and `get_file` when it is not, with the depth passed on |
| CacheTool.FailureKeepsTable | backend/app/services/mcp_tools.py:55-102 | A failed call leaves the table unchanged, and a fetch exception is the one re-raised |
| CacheTool.SummaryOfResponse | backend/app/services/mcp_tools.py:71-80 | The stored name and timestamp come from the response's `name` and `lastModified`; a malformed `lastModified` is stored as NULL without aborting |
| CacheTool.FetchStores | backend/app/services/mcp_tools.py:63-99 | After a fetch, the result is the reduced response; for a node id other than `""`, or when a row already matches the key, the key's row holds its `json.dumps`, the depth, the name and the timestamp |
| CacheTool.MissThenHit | backend/app/services/mcp_tools.py:31-99 | For any node id other than `""`, with a faithful codec and a plain fetched response, a later call for the same key is served from the cache and returns a value equal to the one returned by the fetching call |
| CacheTool.EmptyIdRefetches | backend/app/services/mcp_tools.py:24-95 | When the file key has no row with `node_id` NULL, a call with node id `""` fetches the whole file and inserts a row with `node_id = ""` that later lookups still miss |
| CacheTool.ForceWithoutRecord | backend/app/services/mcp_tools.py:40-53 | With no matching record, force refresh behaves exactly like a plain miss |
| CacheTool.ToolKeepsInvariant | backend/app/services/mcp_tools.py:81-97 | Every call preserves the table's key invariant |
| ImageTool.RenderNodes | backend/app/services/mcp_tools.py:120 | Render nodes are exactly those with a `nodeId` and a falsy `imageRef`, each as often as it occurs in the request, in request order |
| ImageTool.FillNodes | backend/app/services/mcp_tools.py:161 | Fill nodes are exactly those with an `imageRef` key, each as often as it occurs in the request, in request order |
| ImageTool.Partition | backend/app/services/mcp_tools.py:123-124 | The PNG/SVG split itself; what it does is stated by PartitionSplits |
| ImageTool.Step | backend/app/services/mcp_tools.py:131-139 | One loop iteration itself; what it does is stated by MissingContinues and StepGroup |
| ImageTool.Each | backend/app/services/mcp_tools.py:131-141 | A group's loop itself; what it does is stated by EachShape, EachGroup and RunEach |
| ImageTool.RenderGroup | backend/app/services/mcp_tools.py:127-158 | A render group itself; what it gives is stated by RunRenderGroup and RenderGroupOf |
| ImageTool.FillGroup | backend/app/services/mcp_tools.py:160-175 | The fill group itself; what it gives is stated by FillGroupOf |
| ImageTool.DownloadImages | backend/app/services/mcp_tools.py:104-177 | The whole tool itself; what it gives is stated by DownloadFigmaImagesTool and GroupsInOrder |
| ImageTool.PartitionSplits | backend/app/services/mcp_tools.py:123-124 | The render nodes split disjointly and exhaustively into SVG (a `fileName` ending in `.svg`) and PNG (all others); each list is the render nodes of its kind in request order, each node as often as it was requested; the split raises iff some `fileName` is not a string |
| ImageTool.WithSvgFilters | backend/app/services/mcp_tools.py:123-124 | A list comprehension over the render nodes that does not raise keeps exactly the nodes meeting its condition, as a filter does |
| ImageTool.RenderedAndFilled | backend/app/services/mcp_tools.py:120-161 | A node with a `nodeId` and a falsy `imageRef` is both rendered and fetched as a fill |
| ImageTool.EachShape | backend/app/services/mcp_tools.py:131-141 | A group's loop gives one message per node, in order, until an exception ends the group with a single failure message; the list stops short of the nodes only right after such a failure |
| ImageTool.MissingContinues | backend/app/services/mcp_tools.py:131-173 | A node that has a `fileName` but whose key has no URL gets a per-node failure message and the loop goes on |
| ImageTool.RunEach | backend/app/services/mcp_tools.py:131-141 | The loop's messages are those of the group's specification |
| ImageTool.RunRenderGroup | backend/app/services/mcp_tools.py:127-157 | A render group gives nothing when empty, one failure when the ids or the URL request fail, and otherwise the loop's messages |
| ImageTool.DownloadFigmaImagesTool | backend/app/services/mcp_tools.py:104-177 | The result is the PNG group, then the SVG group, then the fill group; only a bad `fileName` during the split escapes as an exception |
| ImageTool.RenderGroupOf | backend/app/services/mcp_tools.py:127-157 | Every message of a render group belongs to that group |
| ImageTool.FillGroupOf | backend/app/services/mcp_tools.py:160-175 | Every message of the fill group belongs to it |
| ImageTool.GroupsInOrder | backend/app/services/mcp_tools.py:117-177 | The messages come in the order PNG group, SVG group, fill group |

## Left out

- The `FigmaService` HTTP calls (`get_file`, `get_file_nodes`, render and fill URL requests, `download_image`) are network I/O, so they are parameters. The fetch receives the depth as given; the service sends `depth` only when it is truthy, which is not modelled.
- `json.dumps`/`json.loads` are a caller-supplied codec. `json.dump(..., indent=2)` of the file store is the same codec, because layout does not change what is read back.
- Duplicate keys: a lookup finds the first member of an object, where a dict built by `json.loads` keeps the last. The difference never shows. `RoundTrips` only speaks of plain values, which repeat no key, and only decoded values reach a lookup.
- CacheTool.MissThenHit: requires the fetched response to be plain. `json.loads` gives a plain value for any text without a `NaN` literal. A response holding a NaN would not compare equal to itself in Python either.
- `strptime`: only the exact zero-padded form with ASCII digits, upper-case `T` and `Z` is accepted. Python also accepts:
  - single-digit fields;
  - a space-padded day (`" 5"`);
  - other Unicode digits;
  - `t` and `z` in lower case, because the pattern matches ignoring case.
  Seconds 60 and 61 pass its pattern but are then rejected by `datetime`, as in the model.
- `fromisoformat`: only the second-precision form `isoformat` writes is accepted. The other forms it accepts are not modelled.
- `datetime.now().isoformat()` for `updated_at`: stored as second precision; microseconds are not modelled.
- MySQL specifics are not modelled: collation (comparisons that ignore case and trailing spaces), the `TIMESTAMP` range, and the `String(255)` length limits. Keys compare as exact strings.
- `query.first()` without `ORDER BY`: taken to return the first row in insertion order.
- SQLAlchemy sessions, `commit` and transactions are not modelled; each call's effect on the table is applied at once.
- Concurrency: the read-then-write race between lookup and insert, and concurrent file overwrites, are outside a sequential model.
- CacheTool.StoredName: a metadata `name` that is not a string is stored as NULL. The database would coerce it or raise.
- FileRepository.ReadRecord: any read or parse failure is one `Unreadable` entry (or a codec error), so the logged message is not modelled. A file whose content is not a JSON object also reads as None (an `AttributeError` caught by the same handler).
- Write failures (`OSError` from `open` in `FileSystemRepository.save_data`) are not modelled: every write succeeds. `os.makedirs` in the constructor is not modelled either; the folder's existing files are a constructor argument.
- `download_figma_images_tool`:
  - Result lines are messages (`Downloaded`, `Missing`, `GroupFailed`), not formatted text joined with newlines.
  - The `png_scale` argument is not modelled.
  - Any node that is not a dict is not modelled; node entries are dicts.
  - URL maps are taken to be dicts.
- Numbers are compared structurally, so Python's `1 == True` and `1 == 1.0` are not modelled; no float arithmetic is needed, since numbers are only copied and tested for zero. The limit `json.loads` puts on the digits of an integer is not modelled.
- `os.path.join` is the POSIX form.
- Python's recursion limit is not modelled: `simplify_figma_node` recurses once per nesting level, so a tree about 1000 levels deep raises `RecursionError`, where the model reduces every finite tree.
- The FastAPI routes, the MCP server transport, slide generation, the pydantic schemas and the frontend API wrappers are outside the cache's decision logic.
