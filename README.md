# Scene tree and WebAssembly shape pipeline, in Dafny

This project models two sequential parts of a retained-mode 2D renderer.

**`SceneTree`** (`scene_tree.dfy`) models the scene-node tree of `tree/src/tree.rs`.
- The process-wide `MAX_ID` counter is an explicit `IdAllocator` object. It only grows, and it hands every new node the next id.
- A `Node` is a class with these parts:
  - an immutable id;
  - `i32` geometry;
  - an ARGB background colour;
  - an ordered list of owned children.
- Ownership is a ghost footprint `Repr`. Every child lies strictly inside its parent's footprint, and the footprints of two siblings are disjoint.
- Two operations are methods proved against specification functions: remove-by-id against `WithoutId`, and the recursive search against `FirstWithId` over the pre-order list of descendants.
- Append, indexing and the getters and setters are specified by their effect on the fields.
- Appending below a node that already has a parent goes through `AppendAt` from the root. It widens every ancestor's footprint, so the whole tree stays valid.
- `Tree` holds an optional root.

**`SoftSkia`** (`soft_skia.dfy`) models the WebAssembly front end in `soft-skia-wasm/src/lib.rs`.
- The five tagged attribute records: rectangle, circle, rounded rectangle, line and point sequence.
- Colour resolution: only an RGBA parse outcome gives a colour.
- The style text rule: only `"fill"` gives `Fill`; every other text gives `Stroke`.
- Construction of the matching shape variant, and its installation on the scene.
- The canvas-size rule.
- The rasterization walk, with the pixmap modelled as a trace of painted shapes.

The foreign parts are parameters:
- The CSS colour parser is a function from text to a parse outcome.
- PNG plus base64 encoding is a function from a surface to text.

`Wrappers` (`wrappers.dfy`) holds the `Option` type.

## Model

| member | source | states |
|---|---|---|
| SceneTree.IdAllocator.constructor | tree/src/tree.rs:1 | the counter starts at 0 with no id issued |
| SceneTree.IdAllocator.IssuedDistinct | tree/src/tree.rs:38-41 | one counter never issues an id twice; the ids come out strictly increasing |
| SceneTree.IdAllocator.Next | tree/src/tree.rs:38-41 | the counter grows by one and the new value is returned; it is larger than every id issued before, so ids never repeat |
| SceneTree.Node.constructor | tree/src/tree.rs:36-49 | a new node takes the next id from the counter; x, y, width and height are 0; the background is ARGB (100, 0, 0, 0); there are no children; the node is a valid one-node tree |
| SceneTree.Node.Append | tree/src/tree.rs:51-53 | the node becomes the last child, the earlier children stay in order, ownership stays valid, and geometry and colour are unchanged |
| SceneTree.Node.AppendBoxed | tree/src/tree.rs:55-57 | the same as `append`, for an already boxed node |
| SceneTree.Node.AppendAt | tree/src/tree.rs:51-57 | `get_child_by_index` down a path and then `append` there. The node becomes the last child of the node reached, and no other child list changes. The whole tree stays valid, its footprint grows by the appended subtree, and the node is one of the root's descendants |
| SceneTree.Node.AppendAtThenFind | tree/src/tree.rs:191-196 | after appending to a node anywhere in the tree, `find_node_by_id` from the root finds a node with the appended node's id |
| SceneTree.Node.RemoveById | tree/src/tree.rs:59-61 | the new child list is exactly the old one without the direct children carrying the id, survivors in their order; the tree stays valid; only the child list changes |
| SceneTree.Node.ValidChildrenWithoutId | tree/src/tree.rs:59-61 | filtering a valid child list leaves a valid child list |
| SceneTree.WithoutId | tree/src/tree.rs:60 | every kept child is an original child without the id, and every original child without the id is kept |
| SceneTree.WithoutIdConcat | tree/src/tree.rs:60 | filtering distributes over concatenation, so the survivors keep their relative order |
| SceneTree.WithoutIdAbsent | tree/src/tree.rs:164-167 | removing an id that no direct child carries leaves the list unchanged, including an id held only by a deeper descendant |
| SceneTree.WithoutIdIdempotent | tree/src/tree.rs:161-167 | removing the same id twice gives the same list as removing it once |
| SceneTree.WithoutIdLength | tree/src/tree.rs:160-162 | the list shrinks by exactly the number of children carrying the id |
| SceneTree.CountId | tree/src/tree.rs:60 | the number of children carrying an id is at most the list length, and it is zero exactly when no child carries the id |
| SceneTree.WithoutIdUnchanged | tree/src/tree.rs:59-61 | `remove_by_id` leaves the list as it was only when no child carries the id; this is the converse of `WithoutIdAbsent` |
| SceneTree.WithoutIdDisjoint | tree/src/tree.rs:60 | the siblings that remain still have pairwise disjoint subtrees |
| SceneTree.Node.GetChildrenLen | tree/src/tree.rs:63-65 | returns the number of direct children |
| SceneTree.Node.GetChildByIndex | tree/src/tree.rs:67-69 | returns the child at that position; an index past the end is excluded, because the source panics there |
| SceneTree.Node.GetBackgroundColor | tree/src/tree.rs:71-73 | returns the background colour |
| SceneTree.Node.SetBackgroundColor | tree/src/tree.rs:75-77 | sets the colour and may change no other field of any object |
| SceneTree.Node.SetWidth | tree/src/tree.rs:79-81 | sets the width and may change no other field of any object |
| SceneTree.Node.SetHeight | tree/src/tree.rs:83-85 | sets the height and may change no other field of any object |
| SceneTree.Node.GetWidth | tree/src/tree.rs:87-89 | returns the width |
| SceneTree.Node.GetHeight | tree/src/tree.rs:91-93 | returns the height |
| SceneTree.Node.FindNodeById | tree/src/tree.rs:95-97 | returns the first pre-order match among the descendants; any result has the requested id and is never the node itself; `None` exactly when no descendant has the id |
| SceneTree.Node.RecursiveFindChildNodeById | tree/src/tree.rs:99-113 | the loop with early returns, which checks each child before that child's subtree in sibling order, returns the first match of the pre-order descendant list |
| SceneTree.Node.ChildSmaller | tree/src/tree.rs:107 | each child is a valid tree with a strictly smaller footprint, so the recursion terminates |
| SceneTree.Node.FirstWithIdFrom | tree/src/tree.rs:103-110 | at child i the result is the child if it matches, else the first match in its subtree, else the first match among the later siblings |
| SceneTree.Node.DescendantsInRepr | tree/src/tree.rs:95-113 | no node is its own descendant, and every descendant is owned by it |
| SceneTree.Node.ChildIsDescendant | tree/src/tree.rs:95-113 | every direct child is among the descendants searched |
| SceneTree.Node.DescendantOfChild | tree/src/tree.rs:103-110 | every descendant of a child is also a descendant of the parent |
| SceneTree.Node.DescendantIsFound | tree/src/tree.rs:95-113 | searching for the id of any descendant finds a node with that id |
| SceneTree.Node.FindDirectChild | tree/src/tree.rs:191-196 | searching for the id of a direct child, for example one just appended, finds a node with that id |
| SceneTree.FirstWithIdSpec | tree/src/tree.rs:99-113 | the search gives `None` exactly when no node carries the id; otherwise it gives the earliest node that carries it |
| SceneTree.FirstWithIdCons | tree/src/tree.rs:104-105 | a matching first node wins, otherwise the search continues with the rest |
| SceneTree.FirstWithIdConcat | tree/src/tree.rs:103-111 | the first match in a concatenation is in the first part if there is one there |
| SceneTree.FirstWithIdStep | tree/src/tree.rs:104-109 | a child, then its subtree, then the later siblings |
| SceneTree.TestIds | tree/src/tree.rs:127-170 | five nodes made from a fresh counter get ids 1, 2, 3, 4, 5 in creation order |
| SceneTree.TestSetters | tree/src/tree.rs:169-188 | a fresh node reads back ARGB (100, 0, 0, 0), width 0 and height 0; after the setters it reads back (99, 255, 255, 255), 100 and 50 |
| SceneTree.TestRoot | tree/src/tree.rs:126-140 | a new tree has no root; after `set_root` the root is the node with id 1 |
| SceneTree.Tree.constructor | tree/src/tree.rs:20-24 | a new tree has no root |
| SceneTree.Tree.GetRoot | tree/src/tree.rs:26-28 | returns the current root |
| SceneTree.Tree.SetRoot | tree/src/tree.rs:30-32 | the root becomes the given node, replacing any previous one |
| SoftSkia.ResolveColor | soft-skia-wasm/src/lib.rs:153-154 | a colour is produced exactly for an `Ok(RGBA)` parse outcome, channel for channel; a parse error or a non-RGBA colour produces none |
| SoftSkia.ResolveColorToRgba | soft-skia-wasm/src/lib.rs:167 | resolving the RGBA value of a colour gives that colour back |
| SoftSkia.StyleFromText | soft-skia-wasm/src/lib.rs:156-166 | the result is `Fill` exactly for `"fill"`, and `Stroke` for `"stroke"` and every other text |
| SoftSkia.StyleText | soft-skia-wasm/src/lib.rs:156-166 | the text of a style is `"stroke"` or `"fill"` |
| SoftSkia.StyleTextRoundTrip | soft-skia-wasm/src/lib.rs:156-166 | mapping the text of a style back gives the same style |
| SoftSkia.StyleFromCanonicalText | soft-skia-wasm/src/lib.rs:156-166 | on `"stroke"` and `"fill"` the mapping is invertible |
| SoftSkia.ShapeFromAttr | soft-skia-wasm/src/lib.rs:146-275 | a shape is built exactly when the colour text resolves to RGBA; it has the record's tag and the parsed colour; its style is the mapped style text, the same rule for R, C, RR and P; a line has no style |
| SoftSkia.AttrOf | soft-skia-wasm/src/lib.rs:26-79 | the record describing a shape has the shape's tag and the given colour text |
| SoftSkia.ShapeFromAttrOf | soft-skia-wasm/src/lib.rs:146-275 | every shape can be installed: its record, with a colour text that parses to its colour, builds exactly that shape |
| SoftSkia.AttrOfShapeFromAttr | soft-skia-wasm/src/lib.rs:146-275 | the built shape describes the same record again, with the style text in canonical spelling, so every geometry field and the point list are copied verbatim |
| SoftSkia.CanonicalAttrOfCanonical | soft-skia-wasm/src/lib.rs:156-166 | a record whose style text is already `"stroke"` or `"fill"` is unchanged by canonical spelling, so for it the round trip returns the record itself |
| SoftSkia.PaintOrderConcat | soft-skia-wasm/src/lib.rs:135-138 | painting two sibling lists one after the other paints their concatenation |
| SoftSkia.PaintOrderSnoc | soft-skia-wasm/src/lib.rs:135-138 | a sibling appended last is painted after all earlier ones, and its own shape comes before its subtree's |
| SoftSkia.PaintOrderLength | soft-skia-wasm/src/lib.rs:134-139 | one shape is painted per node of the forest |
| SoftSkia.RootNotPainted | soft-skia-wasm/src/lib.rs:127-138 | the walk over a root paints one shape fewer than the tree has nodes, and the first shape painted is the first child's |
| SoftSkia.ForestSizeConcat | soft-skia-wasm/src/lib.rs:134-139 | the size of a concatenated forest is the sum of the parts' sizes |
| SoftSkia.StackPaintOrderIsPaintOrder | soft-skia-wasm/src/lib.rs:134-139 | an explicit work-stack painter paints exactly the shapes of the recursive walk, in the same order |
| SoftSkia.ReplacedAtConcat | soft-skia-wasm/src/lib.rs:167 | replacing the entries whose id matches distributes over concatenation |
| SoftSkia.InstallForestPaintOrder | soft-skia-wasm/src/lib.rs:167 | installing a shape keeps every id and the tree's structure, and in the painted trace it changes exactly the shapes of the nodes with that id |
| SoftSkia.InstallForestAbsent | soft-skia-wasm/src/lib.rs:167 | installing under an id that no node carries changes nothing |
| SoftSkia.InstallTree | soft-skia-wasm/src/lib.rs:167 | the root gets the shape exactly when it has the id; its descendants' painted shapes change exactly where the ids match; an id found nowhere leaves the scene as it was |
| SoftSkia.CanvasSize | soft-skia-wasm/src/lib.rs:117-125 | a rectangle root gives its width by its height; every other root shape gives 0 by 0 |
| SoftSkia.CanvasAfterInstall | soft-skia-wasm/src/lib.rs:117-125 | after installing a record on the root, the canvas is the record's width by height for a rectangle and 0 by 0 otherwise |
| SoftSkia.Pixmap.constructor | soft-skia-wasm/src/lib.rs:120-123 | a new surface has the requested size and nothing painted on it |
| SoftSkia.Draw | soft-skia-wasm/src/lib.rs:136 | painting a shape appends it to the surface's trace |
| SoftSkia.RecursiveRasterizationNodeToPixmap | soft-skia-wasm/src/lib.rs:134-139 | the trace grows by exactly the pre-order flattening of the node's descendants, without the node's own shape |
| SoftSkia.SoftSkiaWasm.constructor | soft-skia-wasm/src/lib.rs:22 | the instance holds the given scene |
| SoftSkia.SoftSkiaWasm.ToBase64 | soft-skia-wasm/src/lib.rs:115-132 | the result is `data:image/png;base64,` followed by the encoding of a surface. The surface is sized by the root's shape and carries the descendants' shapes in paint order. The result always starts with that prefix |
| SoftSkia.SoftSkiaWasm.SetShapeBySerde | soft-skia-wasm/src/lib.rs:142-276 | a message that did not decode is excluded, because `unwrap` panics. A colour that is not RGBA leaves the scene unchanged. Otherwise the scene is the old one with the built shape installed on the nodes with that id |

## Left out

- `soft_skia::instance::Instance` is not modelled here. `SoftSkia.Install` stands in for its `set_shape_to_child`. This stand-in rests on two assumptions about that function. First, the root may be the target; the search in tree/src/tree.rs:95-113 never compares the node it starts from. Second, every node with the id gets the shape, not only the first one found. `SoftSkia.SceneNode` does not constrain ids, so the model does not assume they are distinct.
- `Instance::new`, `create_child_append_to_container`, `create_child_insert_before_element_of_container` and `remove_child_from_container` (soft-skia-wasm/src/lib.rs:88-107) only forward to `Instance`, which is not part of this model. `SoftSkia.SoftSkiaWasm.constructor` takes the initial scene as a parameter instead.
- The renderer's `soft_skia::tree::Node` is not the `tree/src/tree.rs` node, and it is not modelled here as a class. It is modelled as a value, `SoftSkia.SceneNode`, with an id, a shape and children. That is all the walk and the shape update use.
- Pixels are not modelled. `Shapes::draw` appends the shape to a trace, and painting itself is left to the foreign library.
- `Pixmap::new(..).unwrap()` and `encode_png().unwrap()` are treated as always succeeding. Whether the foreign library accepts a zero-sized surface is outside this model.
- PNG encoding and `base64::encode` are the `encode` parameter of `SoftSkia.SoftSkiaWasm.ToBase64`.
- The CSS colour grammar is the `parse` parameter. The model does not check which texts parse to which colours.
- `serde_wasm_bindgen::from_value` is not modelled. A message that did not decode is `None`, and the precondition excludes it, because the source panics there.
- Distinct ids across a whole tree: ids are distinct only among nodes made from one `IdAllocator`, through `SceneTree.IdAllocator.Next` and `IssuedDistinct`. `SceneTree.Node.Valid` does not require the ids in a tree to be distinct, and nodes made from two allocators may share an id. The source has one process-wide counter (tree/src/tree.rs:1, 38-41), which rules that out.
- `SceneTree.Node.Append` and `SceneTree.Node.AppendBoxed` keep only the receiving node's own ownership invariant. On a node that has a parent they do not widen the ancestors' footprints. Appending below the root is therefore modelled by `SceneTree.Node.AppendAt`, which is called on the root with the path of child indices.
- `SceneTree.IdAllocator.Next`: the counter is an unbounded natural number, so the `usize` overflow after 2^64 nodes is not modelled.
- The `Cell<i32>` interior mutability of `y` (tree/src/tree.rs:12) is an ordinary field.
- The test's steps that append, remove and search on a built tree (tree/src/tree.rs:142-196) are not replayed as one concrete scenario. The general lemmas above cover each step: `Append`, `RemoveById` with `WithoutIdLength`, `WithoutIdAbsent` and `WithoutIdIdempotent`, and `FindNodeById` with `FindDirectChild` and `AppendAtThenFind`.
- The debug-only `to_debug`, the `wee_alloc` allocator and the `wasm_bindgen` glue are not modelled.
- The Vue plugin (vue-skia-framework/plugin/index.ts) is not modelled. It is component lifecycle code.
