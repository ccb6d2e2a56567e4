# Selector builder and katas, modelled in Dafny

This project models two JavaScript modules of an exercise repository and
proves properties of the model.

- **CSS selector builder** (`task/08-objects-tasks.js`), in module `CssSelectors`
  (`css_selectors.dfy`). It covers:
  - `Element`, which keeps six part lists and the cursor `_last`;
  - its six step methods, with their two errors (`ElementException`);
  - `stringify`;
  - `ComboElement` with `push` and `stringify`;
  - the `cssSelectorBuilder` facade, including `combine`.

  A step is a pure transition that returns `Ok(builder)` or `Err(error)`. The
  object mutated in place for chaining becomes a new value, and a thrown
  exception becomes an `Err` that later steps pass along.
- **Katas** (`task/10-katas-1-tasks.js`):
  - `createCompassPoints` and `getDirection`, in module `Compass`
    (`compass.dfy`);
  - `getZigZagMatrix`, in module `ZigZag` (`zigzag.dfy`);
  - `canDominoesMakeRow`, `sumNearest` and `sumNeighbour`, in module
    `Dominoes` (`dominoes.dfy`).
- Module `Wrappers` (`wrappers.dfy`) holds the `Option` and `Result` types
  used by the models.

Each operation is paired with an independent statement of what it computes:
- Builder steps: `InOrder`, a condition on the calls of a chain alone, with no
  builder state. A chain is accepted exactly when it holds.
- Zig-zag matrix: the closed form `ZigZagIndex`, with its inverse `Position`.
- Dominoes: `CanMakeRow`, which counts present tiles and uses no grid.
- Compass: the standard 32-point name table `PointNames`.

Where the code and its documentation disagree, the model follows the code:
- **Attributes render with a comma.** `stringify` writes the attribute list
  with JavaScript's array-to-string conversion. So two attributes render as
  `[a,b]`, not as two bracketed attributes. The id and pseudo-element lists
  use the same conversion, but each holds at most one value.
- **Dominoes use a grid test, not a chain search.** `canDominoesMakeRow` never
  searches for a chain. It marks cell `[x][y]` of a grid for each tile,
  written only as given. A list is rejected when some tile has no marked
  cell among its eight surrounding cells, or has four marked cells among
  its orthogonal ones. The documentation says a tile `[i, j]` may be turned
  round, but the grid does not do so. `OrientationMatters` shows that
  turning one tile changes the answer.

## Model

| member | source | states |
|---|---|---|
| CssSelectors.Step | task/08-objects-tasks.js:153-207 | A step fails with the duplicate error exactly when the category is element, id or pseudo-element and its list already holds one value. Otherwise it fails with the ordering error exactly when `_last` is above the category's rank. On success the value is appended to that category's list only, and the cursor moves to the category's rank. |
| CssSelectors.StepPreservesValid | task/08-objects-tasks.js:110-207 | Successful steps keep three things true: the cursor is in -1..5, a singleton list holds at most one value, and no list ranked above the cursor is filled. |
| CssSelectors.DuplicateBeforeOrder | task/08-objects-tasks.js:153-207 | A repeated element, id or pseudo-element is reported as a duplicate even when it is also out of order, because the duplicate test comes first. |
| CssSelectors.PseudoElementNeverOutOfOrder | task/08-objects-tasks.js:199-207 | `pseudoElement` never throws the ordering error. It succeeds exactly when no pseudo-element was given before. |
| CssSelectors.RankOrderAfterStep | task/08-objects-tasks.js:153-207 | After a successful step, any step of a lower category fails, with the ordering error unless it is a duplicate. Repeating a class, attribute or pseudo-class succeeds. Repeating a singleton category fails as a duplicate. |
| CssSelectors.Start | task/08-objects-tasks.js:253-277 | Each facade entry point returns a valid builder that holds only the given value, with the cursor at its category's rank. It never fails. |
| CssSelectors.RunAcceptsExactlyOrderedCalls | task/08-objects-tasks.js:153-207 | A chain of calls succeeds exactly when its ranks never decrease and no singleton category repeats. The resulting builder lists each category's values in call order, and its cursor is the rank of the last call. |
| CssSelectors.Stringify | task/08-objects-tasks.js:124-151 | The rendering is six sections in rank order: the element, `#` and the id, `.` before each class, the attributes joined by commas inside one pair of brackets, `:` before each pseudo-class, and `::` with the pseudo-element. An empty list writes nothing, so a builder with every list empty renders as the empty string. The contract states only that empty case. `StringifyStep` states how each step changes the rendering. |
| CssSelectors.StringifyStep | task/08-objects-tasks.js:124-207 | Each successful step extends the rendering at its end, adding the category's prefix, the value, and `]` for an attribute. A second attribute is the exception: it goes inside the existing brackets after a comma. |
| CssSelectors.Push | task/08-objects-tasks.js:220-235 | `push` keeps the two lists of a `ComboElement` the same length. Its `stringify`, modelled by `Render` and `RenderFrom`, then gives what was there before, followed by the pushed part's rendering, followed by its combinator between single spaces. A combinator that is `undefined` adds nothing. |
| CssSelectors.Combine | task/08-objects-tasks.js:279-281 | `combine(s1, c, s2)` renders as s1's rendering, a space, c, a space, then s2's rendering. |
| CssSelectors.ExampleIdAndClasses | task/08-objects-tasks.js:90 | `id('main').class('container').class('editable')` renders `#main.container.editable`. |
| CssSelectors.ExampleAttrAndPseudoClass | task/08-objects-tasks.js:92 | `element('a').attr('href$=".png"').pseudoClass('focus')` renders `a[href$=".png"]:focus`. |
| CssSelectors.ExampleDivCompound | task/08-objects-tasks.js:95 | `element('div').id('main').class('container').class('draggable')` succeeds and renders `div#main.container.draggable`. |
| CssSelectors.ExampleTableCompound | task/08-objects-tasks.js:98 | `element('table').id('data')` succeeds and renders `table#data`. |
| CssSelectors.ExampleRowCellCompounds | task/08-objects-tasks.js:101-103 | `element('tr')` and `element('td')`, each followed by `pseudoClass('nth-of-type(even)')`, succeed and render `tr:nth-of-type(even)` and `td:nth-of-type(even)`. |
| CssSelectors.ExampleNestedCombine | task/08-objects-tasks.js:94-106 | The documented nested combination renders `div#main.container.draggable + table#data ~ tr:nth-of-type(even)   td:nth-of-type(even)`. |
| CssSelectors.MessageIdentifiesError | task/08-objects-tasks.js:239-251 | `Message` gives the text `ElementException` throws for each case. The two texts differ, so the text shows which rule was broken. |
| CssSelectors.ExampleErrors | task/08-objects-tasks.js:153-207 | A second element, id or pseudo-element fails as a duplicate. So does an element after an element and a class. An id after a class fails as out of order. |
| ZigZag.GetZigZagMatrix | task/10-katas-1-tasks.js:127-156 | For every n ≥ 1 the result is an n×n matrix, and every cell (i, j) holds the cell's zig-zag index. |
| ZigZag.ScanStep | task/10-katas-1-tasks.js:132-151 | One pass of the loop body settles the values `start` and `end` and moves the two counters one step towards each other. While they have not crossed, the walk stands on the cell whose scan index is the new `start`, heading in its diagonal's direction. |
| ZigZag.WriteEnds | task/10-katas-1-tasks.js:134-136 | Writing `start` at the walk cell and `end` at its point mirror gives both values their final cells. |
| ZigZag.AdvanceScans | task/10-katas-1-tasks.js:138-148 | In the upper-left triangle, the step `Advance` and its reversal at the top or left edge move to the cell with the next scan index. They leave the direction that of the new diagonal. |
| ZigZag.ZigZagMirror | task/10-katas-1-tasks.js:131-136 | Two cells that mirror each other through the centre hold values summing to n² − 1. |
| ZigZag.ZigZagRange | task/10-katas-1-tasks.js:131 | Every cell holds a value from 0 to n·n − 1. |
| ZigZag.ZigZagInjective | task/10-katas-1-tasks.js:127-156 | No two cells hold the same value. |
| ZigZag.Position | task/10-katas-1-tasks.js:127-156 | Every value from 0 to n² − 1 is held by a cell of the n×n matrix. |
| ZigZag.PositionOfIndex | task/10-katas-1-tasks.js:127-156 | `Position` inverts the cell-to-value map, so the matrix is a permutation of 0 .. n² − 1. |
| ZigZag.ZigZagExamplesSmall | task/10-katas-1-tasks.js:111-119 | The documented matrices for n = 1, 2 and 3. |
| ZigZag.ZigZagExampleFour | task/10-katas-1-tasks.js:121-124 | The documented matrix for n = 4. |
| Dominoes.MaxPip | task/10-katas-1-tasks.js:183-185 | The reduce gives a value no pip exceeds. It is 0 or a pip of some tile. |
| Dominoes.MarkGrid | task/10-katas-1-tasks.js:187-192 | In the built grid, cell [a][b] is 1 exactly when [a, b] is one of the tiles as written, and 0 otherwise. |
| Dominoes.NoTileBeyond | task/10-katas-1-tasks.js:183-188 | No tile lies beyond the largest pip, so the grid's size leaves no tile out. |
| Dominoes.SumNearestCountsTiles | task/10-katas-1-tasks.js:205-227 | On that grid, the bounds checks of `sumNearest` (modelled by `SumNearest`) skip only cells that hold no tile. So it counts exactly the tiles among the eight cells around [x, y]. |
| Dominoes.SumNeighbourCountsTiles | task/10-katas-1-tasks.js:229-243 | The same holds for `sumNeighbour` (modelled by `SumNeighbour`) and the four orthogonal cells. |
| Dominoes.GridTestIsFits | task/10-katas-1-tasks.js:194-200 | A tile fails the grid test exactly when no tile lies around it or tiles lie on all four orthogonal sides. |
| Dominoes.CanDominoesMakeRow | task/10-katas-1-tasks.js:180-203 | The answer is true exactly when every tile of the list has a tile around it and at most three beside it. |
| Dominoes.EmptyMakesRow | task/10-katas-1-tasks.js:194-201 | The empty list is accepted: the check loop has no tile to reject, so the function returns true. |
| Dominoes.RejectedAt | task/10-katas-1-tasks.js:196-199 | A single tile failing the test rejects the whole list. |
| Dominoes.SingleTileRejected | task/10-katas-1-tasks.js:194-200 | Every one-tile list is rejected. |
| Dominoes.NeighbourAtMostNearest | task/10-katas-1-tasks.js:205-243 | The orthogonal count never exceeds the surrounding count. |
| Dominoes.OrientationMatters | task/10-katas-1-tasks.js:187-192 | `[[0,1],[0,2]]` is accepted, but turning the second tile into `[2,0]` makes the list rejected. |
| Dominoes.ExampleTwoTiles | task/10-katas-1-tasks.js:174 | `[[0,1],[1,1]]` is accepted. |
| Dominoes.ExampleFiveTiles | task/10-katas-1-tasks.js:175 | `[[1,1],[2,2],[1,5],[5,6],[6,3]]` is rejected. |
| Dominoes.ExampleSixTiles | task/10-katas-1-tasks.js:176 | `[[1,3],[2,3],[1,4],[2,4],[1,5],[2,5]]` is accepted. |
| Dominoes.ExampleUpperTriangle | task/10-katas-1-tasks.js:177 | The ten tiles `[0,0]` … `[3,3]` are rejected. |
| Compass.GetDirection | task/10-katas-1-tasks.js:37-46 | An even index gives a side. An odd index joins the two sides around it, the even-positioned one (north or south) first. |
| Compass.EightPoints | task/10-katas-1-tasks.js:37-46 | On the cardinals, indices 0..7 give N, NE, E, SE, S, SW, W, NW. |
| Compass.QuarterNames | task/10-katas-1-tasks.js:24-28 | The eight names built in each turn of the outer loop are the standard names of that quarter of the rose. |
| Compass.QuarterOf | task/10-katas-1-tasks.js:24-28 | The `arr` of turn i holds, in order, the standard names of points 8i to 8i + 7. |
| Compass.PushQuarter | task/10-katas-1-tasks.js:29-32 | After the `forEach`, eight more points carry their standard names, each with azimuth 11.25 times its index. |
| Compass.CreateCompassPoints | task/10-katas-1-tasks.js:19-35 | The result has 32 points, and point k carries the k-th standard name with azimuth k · 11.25. |
| Compass.CardinalsEveryEighthPoint | task/10-katas-1-tasks.js:19-35 | The cardinals sit at every eighth point, 90 degrees apart. |
| Compass.ExampleEnds | task/10-katas-1-tasks.js:10-17 | The first three documented entries, and the last, are N at 0, NbE at 11.25, NNE at 22.5 and NbW at 348.75. |

## Left out

- `expandBraces` and `getToken`: outside the modelled core. Neither expands anything. `expandBraces` replaces its argument with a fixed literal, splits it, and yields no value. `getToken` calls itself on a prefix, discards that result, and then yields the characters of its argument one by one.
- `extractRanges`: outside the modelled core.
- `Rectangle`, `getJSON` and `fromJSON`: outside the modelled core. `Rectangle` returns a plain object with a width, a height and an area function that multiplies them. `getJSON` is a direct call of `JSON.stringify`. `fromJSON` parses its text and always gives the result `Rectangle`'s prototype, ignoring its `proto` argument.
- The JavaScript throw mechanism: `ElementException` throws a string from its constructor. This becomes an `Err` value, and `Message` gives the text for each case.
- Aliasing: a step mutates and returns the same object, so two chains that start from one stored builder share state. The model has value semantics.
- The text of `ComboElement.stringify` for parts that are neither an `Element` nor a `ComboElement`. The model only has those two kinds of selector.
- `createCompassPoints`: the azimuth is a JavaScript number. It is modelled as a `real`. Every value it takes is a multiple of 11.25 below 360, which is exact in binary floating point, so nothing is lost.
- Inputs outside the functions' domains are excluded by the types or by a precondition:
  - `Dominoes.CanDominoesMakeRow`: tiles with negative or non-integer pips are excluded by the `nat` type.
  - `ZigZag.GetZigZagMatrix`: `n < 1` is excluded. For `n = 0` the JavaScript writes into a row that does not exist and throws.
  - `Compass.GetDirection`: only called with the four sides and an index below 8. Other inputs would make JavaScript read `undefined`.
- `ZigZag.GetZigZagMatrix`: the matrix is a sequence of sequences, not a JavaScript array of arrays. Its cells start at −1 to stand for the `undefined` that `fill()` leaves. The proof shows every cell is overwritten.
