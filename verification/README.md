# figma2css: CSS generation from a Figma document, modelled in Dafny

`figma2css.js` reads a Figma document tree. It finds one node by `type` and
`name` (`findObject`), then folds `appendCSS` over that node's children. The
walk is pre-order. Every `TEXT` node it reaches becomes one CSS rule
`.name { ... }`. The rule's lines come from the node's `style` keys that the
`validProperties` table knows. `formatColor` prints a colour object as
`rgb(R,G,B);`. This project models those pure parts and proves what they
do.

Modules, one per part of the file:

- `Json` (`json.dfy`): JavaScript objects as ordered entry lists
  `seq<(string, V)>` in `Object.keys` order, own-property lookup `Get`, and
  template-literal printing `Display`.
- `DesignTree` (`design_tree.dfy`): the node datatype. The JavaScript field
  `type` is called `kind`, and `children` is `Absent` or `Present(nodes)`.
  `Outcome` holds either a value or the `TypeError` the code throws.
- `Lookup` (`find_object.dfy`): `findObject` as written (`FindObject`), and
  the search it evidently meant (`FindDeep`, see Findings).
- `Colors` (`format_color.dfy`): `formatColor`.
- `Stylesheet` (`append_css.dfy`): `validProperties`, the rule text, and the
  `appendCSS` walk. The walk is written once as `Walk`, parameterised by the
  text a styled `TEXT` node contributes. `AppendCss` is `Walk` with the
  source's rule text. The module-level counter `iterator` becomes the
  returned `Emitted.texts`, which is how much one call makes it grow.
- `Generate` (`generate.dfy`): the fold at lines 125-128 over the found
  node's children, starting from empty text.

Two hidden effects of the source are explicit here:

- A `TypeError` becomes `Threw(...)`. `findObject` throws when it reads the
  `children` of a node that has none. `appendCSS` throws on a `TEXT` node
  without `style`. The fold throws when the found node has no `children`.
- The `iterator` counter becomes the returned count `Emitted.texts`.

Number printing (JavaScript's `Number.prototype.toString`) is a parameter
`show: real -> string`. Channel products are exact real products. The
examples use `IntegralToString`. It prints integral values below 10^21 in
magnitude the way JavaScript does. JavaScript prints larger values in
exponent notation, which this helper does not cover.

This model follows `figma2css.js`. The file has no deduplication, selector
sigils, option tags, `!important`, `textCase`/`textDecoration` mappings,
PostScript font-weight rewriting or vector handling, so none are modelled.
The file's `validProperties` maps `lineHeightPx` to `letter-height`, and the
model keeps that name. `formatColor` puts the `;` inside its result
(`rgb(0,0,255);`), and the model does the same.

## Model

| member | source | states |
|---|---|---|
| `Lookup.Matches` | figma2css.js:42-43 | the test that a child's `type` and `name` both equal the ones sought; `Lookup.FirstMatch` and `Lookup.FindObject` state its use |
| `Lookup.FirstMatch` | figma2css.js:41-47 | the first loop stops at the first child whose type and name both match; no earlier child matches; `|children|` means none matched |
| `Lookup.FindObject` | figma2css.js:39-59 | no `children` throws; empty `children` gives `null`; the first matching direct child is returned; any node returned has the requested type and name and lies below the searched node |
| `Lookup.FindObjectAlongSpine` | figma2css.js:41-55 | when a node on the first-child chain has a matching direct child, the result is the first match under the first such node |
| `Lookup.FindObjectOffSpine` | figma2css.js:41-57 | when no node on the first-child chain has a matching direct child, the result is a `TypeError` if the chain ends at a node without `children`, and `null` if it ends at an empty array |
| `Lookup.DescendsIntoFirstChild` | figma2css.js:50-55 | with no direct match and a non-empty `children`, the search continues in `children[0]` only |
| `Lookup.LaterSiblingsIgnored` | figma2css.js:51-54 | once no direct child matches, replacing the later siblings (and everything under them) never changes the result |
| `Lookup.MissedUnderSecondSibling` | figma2css.js:51-54 | a node that sits under the second child is not found (`null`), while the full search finds it |
| `Lookup.FindDeep` | figma2css.js:39-59 | the corrected search: whatever it returns matches and lies below the searched node |
| `Lookup.FindDeepComplete` | figma2css.js:39-59 | the corrected search finds a match whenever one lies anywhere below the searched node |
| `Lookup.FindDeepFirstHit` | figma2css.js:41-55 | which match the corrected search returns: the first matching direct child; otherwise the hit of the first child, in order, whose subtree holds a match; nothing when no child's subtree does |
| `Lookup.FindDeepExtendsFindObject` | figma2css.js:39-59 | wherever `findObject` finds a node, the corrected search returns the same node |
| `Json.Get` | figma2css.js:92-94 | lookup returns the value of the first entry with that key, and nothing exactly when no entry has the key |
| `Json.GetEntry` | figma2css.js:91-94 | with distinct keys, visiting entries in order is the same as reading `style[key]` for each key of `Object.keys(style)` |
| `Colors.FormatColor` | figma2css.js:67-78 | `rgb(` + the first three values times 255, each of the first two followed by a comma, + `);`; with fewer than three keys the comma is still there after the last value (`rgb();`, `rgb(x,);`, `rgb(x,y,);`) |
| `Colors.Scaled` | figma2css.js:71 | the printed product `${ocolor[key] * 255}`; `Colors.FormatColor` states where each product appears |
| `Colors.ChannelsFrom` | figma2css.js:69-75 | the `forEach` over the colour's keys; what it produces is stated by `Colors.FormatColor` (closed form per key count) and `Colors.ChannelsPastThird` |
| `Colors.ChannelsPastThird` | figma2css.js:69-75 | keys after the third add nothing to the text |
| `Colors.AlphaIgnored` | figma2css.js:69-75 | any keys after `r, g, b`, such as `a`, leave the result unchanged |
| `Colors.BlueExample` | figma2css.js:67-78 | `{r:0, g:0, b:1, a:1}` gives `rgb(0,0,255);` |
| `Stylesheet.ValidPropertiesTable` | figma2css.js:15-21 | exactly `fontFamily`, `fontWeight`, `fontSize`, `letterSpacing` and `lineHeightPx` have a property name, and `lineHeightPx` maps to `letter-height` |
| `Stylesheet.PropertyName` | figma2css.js:92-93 | the lookup `validProperties[key]`; stated by `Stylesheet.ValidPropertiesTable` |
| `Json.Display` | figma2css.js:94 | the template literal `${item.style[key]}`; its body is the case table: a string verbatim, a number as `show` prints it, `true`/`false`, `null`. `Stylesheet.DeclarationsInKeyOrder` places its text inside a line, and `Stylesheet.FontSizeLine` shows the number case |
| `Stylesheet.Declaration` | figma2css.js:92-94 | an entry gives no text exactly when its key is not in `validProperties`; otherwise a line that starts with a tab and ends with a newline |
| `Stylesheet.Block` | figma2css.js:90-97 | the rule text; its body is the literal concatenation `.` + name + ` {\n` + the lines + `}\n\n`. `Stylesheet.TextAddsOneBlock` states that a styled `TEXT` node adds exactly this text, and `Stylesheet.TitleStyleRule` gives one instance |
| `Stylesheet.Declarations` | figma2css.js:91-96 | the `Object.keys(item.style).forEach` building the lines of a rule; stated by `Stylesheet.DeclarationsInKeyOrder`: one line per known key, in key order |
| `Stylesheet.DeclarationsInKeyOrder` | figma2css.js:91-95 | inside a rule, each style entry adds its line in key order: `\t<property>: <value verbatim>;\n` for a known key, nothing for an unknown key |
| `Stylesheet.Walk` | figma2css.js:87-106 | the returned text always starts with the `css` passed in, and is exactly that `css` when no `TEXT` node was counted |
| `Stylesheet.WalkEach` | figma2css.js:99-103 | the same for the `forEach` over a node's children |
| `Stylesheet.AppendCss` | figma2css.js:87-106 | `appendCSS`: on success the text starts with `css` and `iterator` grows by the number of `TEXT` nodes reached; it throws exactly when one of them has no `style` |
| `Stylesheet.AppendEach` | figma2css.js:100-102 | the same for the fold over a list of siblings |
| `Stylesheet.WalkPreOrder` | figma2css.js:87-106 | the walk appends one rule per `TEXT` node reached in pre-order and counts them; it throws when a reached `TEXT` node has no `style` |
| `Stylesheet.WalkEachPreOrder` | figma2css.js:99-103 | the same for a list of siblings |
| `Stylesheet.AppendCssPreOrder` | figma2css.js:87-106 | `appendCSS` output is `css` followed by the rules of the reached `TEXT` nodes in pre-order, and `iterator` grows by their number |
| `Stylesheet.AppendEachPreOrder` | figma2css.js:100-102 | the same for the fold over a list of siblings with the source's rule text |
| `Stylesheet.WalkEachLeftToRight` | figma2css.js:100-102 | folding over `a + b` is folding over `a`, then over `b` from the text `a` left; counts add up |
| `Stylesheet.TextAddsOneBlock` | figma2css.js:88-97 | a styled `TEXT` node adds exactly one rule `.` + name + ` {\n` + lines + `}\n\n` and counts once, whatever its children are |
| `Stylesheet.UnstyledTextThrows` | figma2css.js:88-91 | a `TEXT` node without `style` throws |
| `Stylesheet.ChildlessLeavesCss` | figma2css.js:98-104 | a non-`TEXT` node with no or empty `children` returns `css` unchanged with count 0 |
| `Stylesheet.DuplicatesKept` | figma2css.js:88-97 | two styled `TEXT` nodes with the same name each add their own rule under the same selector, in order, and count 2; nothing is deduplicated by name |
| `Stylesheet.FontSizeLine` | figma2css.js:91-95 | `fontSize: 24` becomes the line `\tfont-size: 24;\n` |
| `Stylesheet.AlignmentSkipped` | figma2css.js:92 | `textAlignHorizontal` is not in the table and gives no line |
| `Stylesheet.TitleStyleRule` | figma2css.js:90-97 | a `TEXT` node named `title` with style `{fontSize: 24, textAlignHorizontal: 'LEFT'}` gets the rule `.title {\n\tfont-size: 24;\n}\n\n` |
| `Generate.GenerateCss` | figma2css.js:125-128 | a found node without `children` throws; otherwise the output is the rules of the `TEXT` nodes reached below it, in pre-order, starting from empty text |
| `Generate.GenerateIsAppendOnContainer` | figma2css.js:125-128 | for a found non-`TEXT` node with `children`, the fold equals `appendCSS(found, '')` |
| `Generate.FoundTextNotRendered` | figma2css.js:125-128 | the found node's own rule is never produced: a found `TEXT` node with empty `children` yields empty text |
| `Generate.TwoTitlesTwoRules` | figma2css.js:88-97 | a frame with two `TEXT` nodes both named `title` yields the `.title` rule twice, and `iterator` ends at 2 |

## Left out

- `fetchProject` (figma2css.js:23-32) is left out: it reads a config file, fetches over HTTP and sets token headers.
- The `commander` CLI wiring and console output (figma2css.js:108-140, 161) are left out as argument parsing and I/O.
- The `watch` command (figma2css.js:142-159) is left out: it is a timer-driven polling loop, and the `generateComponents` it calls is not defined in this file.
- `./lib/figma` (figma2css.js:9) is not part of this model.
- The null dereference at figma2css.js:126, when `findObject` returns `null`, is left out. `Generate.GenerateCss` takes the found node as input.
- Colors.FormatColor: channel products are exact real products, not IEEE doubles, and printing is the `show` parameter, not JavaScript's number formatting.
- Stylesheet.PropertyName: looks up own entries of `validProperties` only. In JavaScript, `validProperties[key]` also sees inherited `Object.prototype` members, so a style key such as `constructor` would produce a line. Figma style keys never have those names.
- Objects are entry lists taken to be in `Object.keys` order. JavaScript orders integer-like keys first. Entry lists may repeat a key, which a JavaScript object cannot; `Json.GetEntry` shows that distinct keys make the two readings agree.
- Style values are strings, numbers, booleans and `null`. Objects and arrays under a known key, whose printing depends on their `toString`, are not modelled.
- `type` and `name` are strings. Missing or non-string values, which JavaScript would compare or print as `undefined`, are not modelled.
- The absolute value of `iterator` is not modelled. It starts at 0 per process, so the model returns only the increase.
- On a `TypeError` the model returns no text and no count. In the source, the partial text is lost too: the exception goes to the `catch` at figma2css.js:137-139. But the module-level `iterator` (figma2css.js:80) keeps every increment made before the throw. That includes the failing node's own, since `iterator += 1` at line 89 runs before `Object.keys(item.style)` throws at line 91. Nothing in the file reads `iterator`, so the difference is not observable.
- The `else { return null; }` branch of `findObject` (figma2css.js:56-57) is unreachable for the `children` values the model admits (`Absent` or an array). In JavaScript, a falsy `children` that is not `null` or `undefined` (`false`, `0`, `""`) gets past line 41 without throwing and reaches that branch. The model leaves such values out.

## Findings

| source | as written | input that shows it | evidently intended | confidence | as-written member | corrected member |
|---|---|---|---|---|---|---|
| figma2css.js:51-54 | the loop over `children` calls `findObject(data['children'][0], ...)` and breaks, so only the first child is searched, and a first child without `children` throws | a `CANVAS` whose children are an empty `FRAME` and a `FRAME` holding `FRAME "Home"`: `findObject(page, 'FRAME', 'Home')` returns `null` | search `children[i]` for each `i` in order and return the first hit; a node without `children` gives `null` (the `else` at lines 56-57) | medium; not executed | `Lookup.MissedUnderSecondSibling` | `Lookup.FindDeep` |

`Lookup.FindDeepComplete` proves that the corrected search finds a match
whenever one exists below the searched node. `Lookup.FindDeepFirstHit`
states which match it returns: the first hit, in order.
`Lookup.FindDeepExtendsFindObject` proves that it returns the same node as
`findObject` wherever `findObject` finds one. The rest of the model starts
from the found node, so neither search feeds into it.
