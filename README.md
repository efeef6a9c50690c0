# blueprint.js in Dafny

A model of blueprint.js, a small DOM templating library, and proofs about it.
The library's `$Element` is a template for one DOM element. It holds a tag
name (default `'DIV'`), an ordered class list, an attribute map, per-type
event-listener lists and an ordered list of children. Each child is a string
or a nested template. Four pieces of the library are modelled:

- **The chainable builder** (`classes`/`class`, `attribute`/`attr`, `on`,
  `text`, `append`/`child`/`children`).
  - `Builder.Element` is a class with the same five fields.
  - Each method updates its fields in place.
  - Each method is specified by a pure function in `Templates`.
- **`clone`/`copy`.**
  - `Copying.Clone` is the copy as written.
  - `Copying.CloneWithAttributes` is the copy as evidently intended (see Findings).
- **`element`/`create`.** `Rendering.Create` turns a template tree into a value
  `Node` that records what the code hands to the DOM.
- **The selector parser `$new`.**
  - `Selector.New` is the imperative parser: a cursor walk over the tokens with the nested bracket scan.
  - It is proved equal to the function `Selector.Parse`.
  - `Selector.Parse` is described by lemmas in `Selector` and by whole-selector examples in `SelectorExamples`.

JavaScript's `trim`, `split(' ')`, `join` and `indexOf` are written out in
`Strings`. `trim` uses the ECMAScript whitespace set. A `null` result from
`$new` is `None`, and a `null` attribute value is `None`. Callbacks are
opaque identifiers.

Behaviours of the code a reader may not expect (the model follows the code):

- `#` and space are not selector delimiters. Only `. [ = ]` are (blueprint.js:170). So `a#main` is a tag name, and a space always cuts the selector, even inside quotes.
- There is no `[text=...]` special case, and there are no id, style, `init`, `prepare` or fragment features.
- `.[x=1]` is not `null`. The token after `.` is the empty text token. It adds no class, and the bracket then sets `x`.
- The bracket scan has no `break`. `[a=1][b=2]` sets `a` to `[b=2` and never sets `b` (`SelectorExamples.LaterBracketOverwritesValue`).
- `append` flattens arrays at any depth, because it calls itself on each element.

## Model

| member | source | states |
|---|---|---|
| Strings.TrimSpec | blueprint.js:163 | `trim` keeps a slice of its input that neither starts nor ends with whitespace, and cuts only whitespace on both sides |
| Strings.TrimIdempotent | blueprint.js:30 | trimming a trimmed string changes nothing, so a stored class name is its own trim |
| Strings.TrimAllWhitespace | blueprint.js:163 | a whitespace-only selector trims to the empty string |
| Strings.TrimKeepsCharacters | blueprint.js:163 | every character left after trimming occurs in the input |
| Strings.SplitOn | blueprint.js:26 | `split(' ')` gives at least one piece, no piece contains a space, and joining the pieces with a space gives the input back |
| Strings.SplitJoin | blueprint.js:26 | splitting a space-joined list of space-free names gives the list back |
| Strings.Trim | blueprint.js:163 | `trim` never lengthens its input; what it cuts is stated by `TrimSpec` |
| Strings.IndexOf | blueprint.js:164 | `indexOf` gives -1 or a position inside the string; which one is stated by `IndexOfSpec` |
| Strings.Join | blueprint.js:134 | `join` of a one-element list is that element; with `SplitOn` it makes the round trip of `SplitJoin` |
| Strings.IndexOfSpec | blueprint.js:164 | `indexOf` is -1 exactly when the character is absent; otherwise it is the first position holding it |
| Templates.Blank | blueprint.js:9-16 | a fresh template has tag `DIV` and is well-formed |
| Templates.Pieces | blueprint.js:20-27 | an array argument is used as it is; a string is cut into space-free pieces that join back to it with spaces |
| Templates.AddClass | blueprint.js:29-36 | one loop step keeps the old list as a prefix, adds only the trimmed piece when it is non-empty and absent, and keeps the list free of duplicates and of untrimmed or empty names |
| Templates.AddClasses | blueprint.js:28-37 | the whole loop: the old list is a prefix, every offered name ends up present, nothing else is added, and the class-list invariant is kept |
| Templates.AddClassesInInputOrder | blueprint.js:28-37 | newly appended names appear in the order in which the input first offers them |
| Templates.AddClassesNothingNew | blueprint.js:34 | a call that offers only names already present leaves the list unchanged |
| Templates.AddClassesIdempotent | blueprint.js:18-40 | repeating the same `classes` call changes nothing |
| Templates.AddListener | blueprint.js:49-61 | `on` appends the callback to the end of its type's list, creating the list if absent, and leaves every other type's list unchanged |
| Templates.Flatten | blueprint.js:68-95 | what one `append` argument contributes: a single child itself, an array the contributions of its elements in order (properties in `FlattenLeaves` and `FlattenAllConcat`) |
| Templates.FlattenAll | blueprint.js:72-90 | what several arguments or array elements contribute, in order |
| Templates.TextOf | blueprint.js:65 | the string `text` appends: `''` for `null`, otherwise the string itself |
| Templates.FlattenAllConcat | blueprint.js:72-90 | appending several arguments contributes their children in left-to-right order |
| Templates.FlattenLeaves | blueprint.js:68-95 | `append(c1, ..., cn)` and `append([c1, ..., cn])` push exactly `c1..cn` in order |
| Builder.Element.constructor | blueprint.js:9-16 | a new template has empty containers and tag `DIV` |
| Builder.Element.Classes | blueprint.js:18-40 | the class list after the call is `AddClasses` of the old list and the pieces; only `classList` changes, and validity is kept |
| Builder.Element.Attribute | blueprint.js:42-47 | only `attributes[key]` changes, and it becomes `value` (last write wins) |
| Builder.Element.On | blueprint.js:49-61 | only the listener map changes, as `AddListener` says |
| Builder.Element.Text | blueprint.js:63-66 | appends one string child, `''` for `null` |
| Builder.Element.Append | blueprint.js:68-95 | `childNodes` becomes the old children followed by the flattened argument; nothing else changes |
| Builder.Element.Copy | blueprint.js:97-126 | returns a fresh object describing an equal template, attributes included, and leaves the source unchanged (corrected copy, see Findings) |
| Builder.Element.Create | blueprint.js:128-160 | renders the template without changing it |
| Copying.Clone | blueprint.js:97-126 | as written: the copy succeeds exactly when no template in the tree has an attribute, and then equals the source |
| Copying.CloneChildren | blueprint.js:116-123 | string children are copied and template children cloned; the first failure fails the whole copy |
| Copying.CloneChild | blueprint.js:117-122 | as written: a string child is copied and a template child cloned; this succeeds exactly when the child's tree has no attribute, and then gives the child back |
| Copying.CloneFailsWithAttributes | blueprint.js:106-108 | any template with an attribute cannot be cloned as written, though the corrected copy reproduces it |
| Copying.CloneFailsBelow | blueprint.js:121 | a child template with an attribute makes cloning its parent fail as well |
| Copying.CloneWithAttributes | blueprint.js:97-126 | the corrected copy equals the source for every template |
| Rendering.Create | blueprint.js:128-160 | the element has the template's tag, attributes and listener lists; it has a `className` exactly when the class list is non-empty, and it is then the class names joined with spaces; it has one child per template child in the same order, a text node holding the string for a string child and the rendered element for a template child |
| Rendering.CreateChild | blueprint.js:149-156 | a string child becomes a text node holding that string, a template child the element it renders to |
| Rendering.CreateReadBack | blueprint.js:128-160 | reading the rendered element back gives the template again, as long as no class name contains a space |
| Rendering.ClassNameReadBack | blueprint.js:133-135 | passing the rendered `className` to `classes` on a fresh template rebuilds the class list |
| Selector.Tokenize | blueprint.js:170 | the split with a capturing group gives an odd number of tokens (text, then delimiter and text in turn) |
| Selector.TokenizeShape | blueprint.js:170 | the split alternates text and delimiter tokens, starting and ending with text, and text tokens hold no delimiter |
| Selector.TokenizeConcat | blueprint.js:170 | the tokens concatenate back to the compound |
| Selector.TokenizeText | blueprint.js:170 | delimiter-free text in front only extends the first token |
| Selector.TokenizeJoin | blueprint.js:170 | tokenizing the concatenation of any alternating token list gives that list back |
| Selector.TextIsNotOperator | blueprint.js:184-185 | a text token is never one of the operator tokens |
| Selector.ClassOperatorNeverFails | blueprint.js:177-190 | a `.` is always followed by a text token, so both `null` returns of the class branch are unreachable, and the step adds that token's classes |
| Selector.StripQuotes | blueprint.js:221-224 | the result is never longer than the value, and a value not starting with a quote is unchanged |
| Selector.StripOnlyMatchingQuotes | blueprint.js:221-224 | a value changes only when it starts and ends with the same quote character |
| Selector.LoneQuote | blueprint.js:221-223 | a value that is a single quote character becomes empty, as `substr(1, -1)` gives |
| Selector.StripQuotesOf | blueprint.js:221-224 | exactly one surrounding pair of `"` or `'` is removed |
| Selector.ScanBracket | blueprint.js:194-227 | the scan never moves the cursor backwards, and once set the key is never changed |
| Selector.ScanAfterKey | blueprint.js:203-225 | after the key is found the scan cannot fail, and with no `]` left it changes nothing more |
| Selector.ScanBeforeKey | blueprint.js:196-218 | before a key is found, the scan fails exactly when a `]` comes before every `=` |
| Selector.BracketFails | blueprint.js:207-218 | a bracket makes `$new` return `null` exactly when a `]` precedes every `=` after it |
| Selector.ScanToKey | blueprint.js:194-206 | when an `=` comes before any `]`, the key is all tokens between the `[` and the first `=` joined, and the cursor moves onto that `=` |
| Selector.AttributeBracket | blueprint.js:191-228 | for a bracket whose first `=` comes before any `]`, and whose first `]` after that `=` is the last `]`: the key is all tokens up to the `=` joined, the value all tokens from there to the `]` joined with quotes stripped, and the walk resumes after the `]` |
| Selector.UnterminatedBracket | blueprint.js:191-228 | for a bracket whose first `=` comes before any `]`, with no `]` after that `=`: the key is all tokens up to the `=` joined, the value is `null`, and the walk resumes after the `=` |
| Selector.KeyName | blueprint.js:228 | the property name `attr` receives: the key, or `"null"` when no key was found |
| Selector.ParseTokens | blueprint.js:171-233 | the cursor walk over the tokens as a function: skip empty tokens, read the token after `.` as classes, scan a bracket, take any other token as the tag, and fail where the loop returns `null` (properties in the walk lemmas below) |
| Selector.WalkKeeps | blueprint.js:171-233 | the token walk changes only the tag, the classes and the attributes; the old class list stays a prefix and its invariant is kept |
| Selector.NoBracketTokensParse | blueprint.js:171-233 | tokens without `[` never give `null` |
| Selector.WalkTag | blueprint.js:172-232 | for tokens without `[`, the tag after the walk is the token at the last tag position, or the old tag when there is none |
| Selector.LastTagIsLargest | blueprint.js:229-232 | the tag the walk ends with is the token at the largest position holding a non-empty token other than `.` that does not follow a `.` |
| Selector.LastTagNone | blueprint.js:229-232 | with no such position the tag stays as it was (`DIV` for a fresh template) |
| Selector.WalkFromBlank | blueprint.js:171-233 | a walk from a fresh template gives a well-formed template with no children and no listeners |
| Selector.Parse | blueprint.js:162-238 | `$new` as a function: trim, cut at the first space, parse the part after it recursively, and assemble the first part with that child (properties in the lemmas below) |
| Selector.Assemble | blueprint.js:170-237 | walks the compound from a fresh template and appends the descendant's template when there is one |
| Selector.ParseShape | blueprint.js:162-238 | every result of `$new` is well-formed, has no listeners, and has at most one child, a template |
| Selector.ParseBlank | blueprint.js:162-175 | empty or whitespace-only input gives the default template |
| Selector.NoBracketParses | blueprint.js:162-238 | a selector without `[` never gives `null` |
| Selector.ParseDescendant | blueprint.js:164-169 | `a b` gives the template for `a` with the template for `b` as its only child, or no child when `b` gives `null`; it is `null` exactly when `a` alone is |
| Selector.ParseCompoundAndRest | blueprint.js:164-168 | `a b` is the compound `a` with the descendant parsed from `b` |
| Selector.ParseCompound | blueprint.js:163-166 | a trimmed selector without a space has no descendant |
| Selector.FirstSpace | blueprint.js:163-164 | in `a b` the first space is the one between the parts, and the string is already trimmed |
| Selector.New | blueprint.js:162-238 | returns `null` exactly when `Parse` gives `None`, and otherwise a fresh, valid element holding `Parse(sel)` |
| Selector.Build | blueprint.js:170-237 | walks the compound into a fresh element and appends the descendant's template when there is one |
| Selector.Walk | blueprint.js:171-233 | the cursor loop gives `null` exactly when `ParseTokens` gives `None`, and otherwise a fresh element holding its result |
| Selector.Step | blueprint.js:172-232 | one pass of the loop body moves the cursor forward and leaves the rest of the walk's result unchanged, or fails where the walk fails |
| Selector.ScanAttribute | blueprint.js:193-227 | the nested scan loop computes `ScanBracket` |
| SelectorExamples.BareTokenIsTag | blueprint.js:229-232 | a compound without delimiters, such as `a#main`, is the tag name |
| SelectorExamples.TagAndClass | blueprint.js:177-190 | `tag.name` sets the tag and the single class `name` |
| SelectorExamples.BracketWithoutValueIsNull | blueprint.js:207-218 | `[k]` and `[]` give `null` |
| SelectorExamples.LaterBracketOverwritesValue | blueprint.js:194-227 | `[a=v1][b=v2]` sets only `a`, to `[b=v2` |

## Left out

- demo.js, the page bootstrap, is not part of this model.
- The real DOM is replaced by the `Rendering.Node` value. Event dispatch and running callbacks are not modelled.
- `console.error` diagnostics are not modelled. Only the `null` result is.
- Children are values, so aliasing is not modelled. In JavaScript a template appended as a child is shared, and later changes to it show in the parent. `Builder.Element.Append` stores a snapshot.
- Raw DOM nodes, numbers and other non-string, non-template children are not modelled. `text` of a non-string (`toString`) is not modelled either: its argument is a string or `null`.
- Builder.Element.Attribute: the key `"__proto__"` is stored like any other key. In JavaScript the assignment at blueprint.js:44 hits the inherited `__proto__` setter: a string value stores nothing and a `null` value replaces the prototype. This also affects `$new('[__proto__=x]')`, `element` and `clone`.
- Builder.Element.Attribute: values other than strings and `null` are not modelled. `attr('disabled')` stores `undefined`, which `Option<string>` cannot hold.
- `attribute` keys other than strings are not modelled, except the `null` key `$new` produces, which becomes `"null"`.
- `append()` with no arguments is not modelled. It pushes `undefined`.
- Templates.AddListener does not model event types that are inherited `Object.prototype` property names (such as `constructor`). For those, `eventListeners[type]` is not `null` in JavaScript.
- Chaining is not modelled: the builder methods return nothing instead of `this`.
- Key enumeration order of `attributes` and `eventListeners` is not modelled, because they are maps.
- Strings are sequences of code points, not UTF-16 code units.

## Findings

| source | as written | input that shows it | evidently intended | confidence | as-written member | corrected member |
|---|---|---|---|---|---|---|
| blueprint.js:106-108 | `clone` copies attributes by calling `push` on the new template's plain-object `attributes`, which has no `push` method | any template with an attribute, e.g. after `attr('href', 'x')`: the call throws a TypeError | copy each attribute by key into the new template | not executed | Copying.CloneFailsWithAttributes | Copying.CloneWithAttributes |
