# logo-constructo, modelled in Dafny

logo-constructo is a command-line tool that asks for up to three letters of
text, a font, a text size, two colours, a shape and a file name, and writes an
SVG logo: one of four fixed shapes (square, triangle, circle, diamond) filled
with the shape colour, with the text centred on top.

This project models the two parts of the tool that hold its logic:

- **The shape renderer** (`lib/shapes.js`), module `Shapes`. A `Shape` object
  holds five strings (text, text colour, font family, text size, shape colour),
  set by its constructor and by five setters. It renders a shape fragment, an
  optional `<text>` element, and the whole 300×200 SVG document. The object is
  the class `Shapes.Shape`, whose `kind` stands for the subclass. Its
  rendering methods are proved against the pure functions `ShapeFragment`,
  `TextFragment` and `LogoDocument`, and the properties are proved about those
  functions. The jest cases of `lib/shapes.test.js` are client methods in
  `ShapesTest`.
- **The answer validators and colour normalisation** (`index.js`), modules
  `Validators`, `Colours` and `Cli`. The three regular expressions are written
  as predicates over characters. Each one has a declarative "language of the
  pattern" definition (`NumberPattern`, `FileNamePattern`) or a direct one
  (`HexColour`), and lemmas show that the hand-written test decides exactly
  that language. The list of standard colour names, which the program reads
  from `lib/colors.json`, is a parameter. `Cli.Init` is what `init` does after
  the prompts: it converts both colours, chooses the shape, and returns the
  file it would write. It does not write the file.
- `JsString` models the JavaScript string built-ins these rely on: `length` in
  UTF-16 code units, `trim()`, `toLowerCase()` and the `\s` class. `Wrappers`
  holds `Option`, which stands for "`undefined` or a value".

Facts about the code that the model keeps:

- `Shape` keeps its five setters. `lib/shapes.test.js` calls `setColor` before
  `render()`, and `index.js` calls none of them.
- The text size is the answer string, passed on unchanged to `font-size`.
- The size validator also accepts `-0`, `-0.0` and the like, because
  `parseFloat` reads them as negative zero and `-0 >= 0` holds.
  `Validators.NegativeSize` states this.
- A colour-list entry `''` found by the lookup is falsy, so the validator
  refuses the answer and the conversion returns it unchanged.
- An unknown shape name makes `init` print an error and return without writing
  anything. `Cli.Init` returns `None` in that case.

## Model

| member | source | states |
|---|---|---|
| `JsString.Utf16Length` | index.js:66 | `length` counts UTF-16 code units. It lies between the number of characters and twice that, and is 0 only for the empty string. |
| `JsString.IsWhitespace` | index.js:115 | The characters `\s` matches and `trim()` removes: tab, line feed, vertical tab, form feed, carriage return, space, no-break space, U+1680, U+2000 to U+200A, the line and paragraph separators, U+202F, U+205F, U+3000 and the byte-order mark. |
| `JsString.ToLower` | index.js:115 | `toLowerCase()` keeps the length and lower-cases each character on its own. |
| `JsString.RemoveWhitespace` | index.js:115 | `replace(/\s/g, '')` leaves no white space and leaves a string without white space unchanged. |
| `JsString.Trim` | index.js:115 | `trim()` gives a contiguous slice of the string. Everything cut before and after it is white space, no white space is left at either end, and a string without white space comes back unchanged. |
| `JsString.RemoveWhitespaceTrim` | index.js:115 | After deleting all white space, trimming first makes no difference. |
| `JsString.RemoveWhitespaceToLower` | index.js:115 | Lower-casing and deleting white space commute. |
| `JsString.ToLowerIdempotent` | index.js:115 | Lower-casing twice is lower-casing once. |
| `JsString.TrimKeeps` | index.js:138 | Every character is either white space or kept by `trim()`. |
| `Shapes.ShapeFragment` | lib/shapes.js:56-78 | Each variant's `render()` is its fixed geometry, then the colour, then `" />`. The colour can be sliced back out, so only the fill varies. |
| `Shapes.FillOfShapeFragment` | lib/shapes.js:57-77 | Reading the fill back from a rendered fragment gives the colour. |
| `Shapes.ShapeFragmentOfFill` | lib/shapes.js:57-77 | A fragment whose fill reads back as a colour is exactly the rendering of that colour. |
| `Shapes.ShapeFragmentInjective` | lib/shapes.js:56-78 | Two fragments are equal only for the same variant and the same colour. |
| `Shapes.FillColour` | lib/shapes.js:41 | The text fill is the text colour when that is non-empty, and `white` otherwise. |
| `Shapes.TextFragment` | lib/shapes.js:39-45 | `generateSVGText()` is empty exactly when the text is empty. Otherwise it is the start tag, with font family, `<size>px` and fill, then the text, then `</text>`. |
| `Shapes.LogoDocument` | lib/shapes.js:47-51 | `renderLogo()` is the `<svg>` header, the shape fragment, the text fragment and `</svg>`. With empty text, `</svg>` follows the shape fragment directly. |
| `Shapes.TextFragmentIgnoresColor` | lib/shapes.js:39-45 | The text element does not depend on the shape colour. |
| `Shapes.LogoDocumentDeterminesKind` | lib/shapes.js:47-78 | Documents from different variants always differ. |
| `Shapes.Shape.constructor` | lib/shapes.js:3-16 | With no specification the fields are `''`, `white`, `Arial`, `70` and `blue`. With one, each field is copied from it. |
| `Shapes.Shape.SetText` | lib/shapes.js:19-21 | Changes the text and nothing else. |
| `Shapes.Shape.SetTextColour` | lib/shapes.js:23-25 | Changes the text colour and nothing else. |
| `Shapes.Shape.SetFontFamily` | lib/shapes.js:27-29 | Changes the font family and nothing else. |
| `Shapes.Shape.SetTextSize` | lib/shapes.js:31-33 | Changes the text size and nothing else. |
| `Shapes.Shape.SetColor` | lib/shapes.js:35-37 | Changes the shape colour and nothing else. |
| `Shapes.Shape.Render` | lib/shapes.js:57-77 | Returns the fragment of the object's variant and current colour, whose fill reads back as that colour. |
| `Shapes.Shape.GenerateSvgText` | lib/shapes.js:39-45 | Returns the text element of the current fields. It is empty exactly when the text is empty. |
| `Shapes.Shape.RenderLogo` | lib/shapes.js:47-51 | Returns the document of the current fields, built from `render()` and `generateSVGText()`. |
| `ShapesTest.RenderSquare` | lib/shapes.test.js:3-7 | A square coloured `blue` renders the exact expected rectangle. |
| `ShapesTest.RenderTriangle` | lib/shapes.test.js:9-14 | A triangle coloured `red` renders the exact expected polygon. |
| `ShapesTest.RenderCircle` | lib/shapes.test.js:16-21 | A circle coloured `green` renders the exact expected circle. |
| `ShapesTest.RenderDiamond` | lib/shapes.test.js:23-28 | A diamond coloured `#ffff00` renders the exact expected polygon. |
| `ShapesTest.RenderDiamondWithText` | lib/shapes.test.js:30-42 | The diamond built from {ABC, red, Arial, 40, #ffff00} renders exactly the expected document. |
| `ShapesTest.RenderDefaultLogo` | lib/shapes.js:4-9 | A shape built without a specification renders a blue shape and no text element. |
| `Validators.LogoTextValidator` | index.js:65-71 | Accepts exactly when the text is at most 3 UTF-16 code units long, and otherwise returns the fixed message. |
| `Validators.ParseNumber` | index.js:74 | Whatever the size test matches comes apart into a sign, integer digits, an optional point and fraction digits that spell the input back. |
| `Validators.ParseNumberText` | index.js:74 | Parsing the text of any well-formed decimal gives that decimal back. |
| `Validators.NumberPatternParses` | index.js:74 | The hand-written test accepts exactly the language of `^-?\d*\.?\d+$`. |
| `Validators.ValueBounds` | index.js:75 | The value read lies within one of its integer digits. A minus sign makes it at most 0. It is 0 exactly when all digits are zeros. |
| `Validators.Value` | index.js:75 | The exact number `parseFloat` reads from an accepted size, before rounding to a double: the sign applied to the whole digits plus the fraction digits over a power of ten. `LogoTextSizeValidator` compares it with 0 and 200. |
| `Validators.LogoTextSizeValidator` | index.js:73-84 | Accepts exactly a string of the pattern whose value lies in [0, 200]. Outside the pattern it gives the syntax message, and out of range the range message. |
| `Validators.SizeByWholePart` | index.js:76-80 | An unsigned size with integer part below 200 is accepted. One above 200 gets the range message. |
| `Validators.NegativeSize` | index.js:76-80 | A size with a minus sign is accepted only if all its digits are zeros. Otherwise it gets the range message. |
| `Validators.IntegerSize` | index.js:73-84 | A plain digit string is accepted exactly when its value is at most 200. |
| `Validators.SvgFileNamePattern` | index.js:138 | The hand-written file-name test accepts exactly the language of `^[^\\/]+\.(svg)$`. |
| `Validators.SvgFileName` | index.js:138 | The `test` of `^[^\\/]+\.(svg)$`: at least one character other than `/` and `\`, then `.svg`, with no separator anywhere. |
| `Validators.LogoFileNameValidator` | index.js:133-144 | Accepts exactly a non-empty answer whose lower-cased, trimmed form is a name without separators followed by `.svg`. Otherwise it returns the fixed message. |
| `Validators.FileNameIgnoresCase` | index.js:138 | The file-name verdict does not change when the answer is lower-cased. |
| `Validators.AcceptedFileNameHasNoSeparator` | index.js:132-144 | An accepted answer contains no `/` and no `\` anywhere. |
| `Validators.DefaultTextAccepted` | index.js:16-17 | The default text `LCM` passes. |
| `Validators.DefaultSizeAccepted` | index.js:31-32 | The default size `70` passes. |
| `Validators.PlainFileNameAccepted` | index.js:138 | A lower-case SVG file name without white space passes as it is. |
| `Validators.DefaultFileNameAccepted` | index.js:59-60 | The default file name `logo.svg` passes. |
| `Validators.UpperCaseFileNameAccepted` | index.js:138 | `LOGO.SVG` passes, because the answer is lower-cased first. |
| `Validators.PathRefused` | index.js:138 | `out/logo.svg` is refused with the file-name message. |
| `Validators.NegativeSizeExamples` | index.js:74-80 | `-0` is accepted, and `-1` gets the range message. |
| `Validators.TrailingPointRefused` | index.js:74 | `5.` gets the syntax message. |
| `Colours.Simplified` | index.js:115 | The lookup key has no white space and no upper-case letter. It equals the answer lower-cased with all white space removed, so the trim adds nothing. |
| `Colours.PlainSimplified` | index.js:115 | An answer already in lower case and without white space is its own lookup key. |
| `Colours.FirstMatch` | index.js:117 | Gives the index of the first entry whose lower-cased form is the key. Every earlier entry differs, and it gives the list length when none matches. |
| `Colours.FindColourInStandardList` | index.js:108-118 | Gives a list entry equal to the simplified answer up to case, the first such entry. It gives nothing exactly when no entry matches. |
| `Colours.FoundIffListed` | index.js:97 | The lookup's result is truthy exactly when the simplified answer is non-empty and some entry matches it. |
| `Colours.Found` | index.js:97 | The truthiness test on the lookup's result, used again at index.js:123: `undefined` and a found `''` are false, any other entry true. |
| `Colours.LogoColourValidator` | index.js:86-104 | The empty answer gets the empty-colour message. Any `#rgb` or `#rrggbb` code is accepted whatever the list. Otherwise the answer is accepted exactly when a list entry matches, and gets the unknown-colour message when none does. |
| `Colours.HexColour` | index.js:91 | `#` then exactly 3 or 6 hex digits of either case. |
| `Colours.ConvertColourToStandardName` | index.js:121-130 | The result is the found entry whenever the lookup is truthy, and the answer unchanged whenever it is not (nothing found, or an empty entry found). So it is the answer itself or a list entry matching the simplified answer. |
| `Colours.ListedNameAccepted` | index.js:86-104 | A non-empty list entry in lower case without white space is accepted as an answer. |
| `Colours.DefaultTextColourAccepted` | index.js:36-39 | With `white` in the list, the text colour prompt's default `white` passes its validator. |
| `Colours.DefaultShapeColourAccepted` | index.js:50-53 | With `blue` in the list, the shape colour prompt's default `blue` passes its validator. |
| `Colours.HexCodePassesThrough` | index.js:121-130 | A hex code that no entry spells comes back unchanged. |
| `Colours.ConvertIdempotent` | index.js:121-130 | Converting a converted colour changes nothing. |
| `Cli.ShapeKind` | index.js:178-194 | The lower-cased name chooses a variant exactly when it is that variant's name. Any other name chooses none. |
| `Cli.ShapeKindOfName` | index.js:178-190 | `circle`, `triangle`, `square` and `diamond` choose their own variants. |
| `Cli.ShapeKindIgnoresCase` | index.js:178 | The choice does not change when the name is lower-cased. |
| `Cli.Init` | index.js:172-197 | Nothing is written exactly when the shape is unknown. Otherwise the file under `./examples/` with the answered name holds the chosen variant's document, with both colours converted to standard names. |

## Left out

- The prompts: `askQuestions`, `constructQuestions` and the question table are interactive input and static configuration (index.js:9-63, 147-156). The defaults they name are checked by `Validators.DefaultTextAccepted`, `Validators.DefaultSizeAccepted`, `Validators.DefaultFileNameAccepted`, `Colours.DefaultTextColourAccepted` and `Colours.DefaultShapeColourAccepted`.
- File I/O: reading `./lib/colors.json` and its module-level cache (index.js:107-113) is replaced by the `list` parameter. The `fs.writeFileSync` call (index.js:196-197) is replaced by returning a `LogoFile`.
- The coloured console output of `lib/utils` (index.js:4, 164-165, 198-199) only displays text. `lib/utils` is not part of this model.
- The `Error: unknown shape` message (index.js:191-192) is not modelled. `Cli.Init` returns `None` in its place.
- The `catch` on `askQuestions` (index.js:168-170): it only logs, and the code that follows would then fail on `undefined` answers.
- Validators.LogoTextSizeValidator: compares the exact decimal value, not `parseFloat`'s double. An input such as `200.00000000000000001`, which rounds to 200 in JavaScript, is refused here.
- JsString.ToLower: lower-cases ASCII letters only. JavaScript's `toLowerCase` also maps other Unicode letters, some to two characters.
- Shapes.Shape.constructor: a specification object missing some `logo…` key (which JavaScript would interpolate as `undefined`) is not modelled. `Spec` always has all five strings.
- The regular-expression engine itself: each pattern is a predicate over characters, shown equal to the pattern's language.
