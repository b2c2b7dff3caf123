# Interactive card and documentation page, modelled in Dafny

This project models two parts of a React component library's showcase site.

The first part is the interactive **Card** component (`src/components/Card.jsx`). It covers:

- the merge of its default colours, tilt and depth with the caller's settings;
- the colour validator `isValidColor`, two case-insensitive regular expressions;
- the pointer handlers, which turn a cursor position into a sample in [-1, 1]²;
- the rotation, depth translation and shadow derived from that sample;
- the three validated update operations of its public API: `updateColor`, `updateTilt` and `updateDepth`;
- the lookup of the card's content by component id.

The second part is the **documentation page** (`src/Parentmain.jsx`). It covers:

- the lookup of the docs entry by title and of the implementation in the component map;
- the bullet formatting of paragraph text (`renderFormattedContent`);
- the table of contents built from the h3 headings;
- the effect that makes the first heading the active section;
- the anchor slug shared by the table's links and `scrollToSection`;
- the fullscreen toggle.

Modules:

- `Common`: `Option`, and `FindFirst` and `FilterMap`. These are `Array.prototype.find` and `filter(...).map(...)`, with their selection lemmas.
- `JsText`: the ECMAScript whitespace class. It is shared by `\s` and `String.prototype.trim`. The module also holds `trim` and ASCII lower-casing.
- `ColorFormat`: `isValidColor`. The hex expression is a predicate. The `rgb`/`rgba` expression is a parser with a renderer, proved to accept exactly the strings the renderer produces.
- `CardMotion`: the arithmetic of the pointer tracker, the rotations, `depthTransform` and `dynamicShadow`.
- `CardComponent`: the `Card` class holding the component's state, the validators, the style of a render and the content lookup.
- `DocsPage`: the documentation page's helpers and its `PageState` class.

Numbers are modelled as mathematical reals. `Number(...)` coercion is an `Option<real>`, where `None` stands for NaN. Each `console.error` diagnostic is a `Rejection` reason that the validators return.

Where the code and its documentation disagree, the model follows the code:

- The caller's initial colours, tilt and depth are merged without any validation. Out-of-range or malformed initial settings are kept as given. The update operations alone enforce the ranges.
- The default shadow colour is `rgba(0, 0, 0, 0.8)`, with spaces. `ColorFormat.DefaultShadowAccepted` shows that the validator accepts it.
- `isValidColor` accepts channel values above 255 (`rgb(300,0,0)`). It refuses percentages, an alpha such as `1.0`, and four- or eight-digit hex.

## Model

| member | source | states |
|---|---|---|
| Common.FindFirst | src/Parentmain.jsx:25 | the index of the first element satisfying the predicate; none exactly when no element does |
| Common.FilterMap | src/Parentmain.jsx:97-100 | filter-then-map never yields more elements than it is given |
| Common.KeptFrom | src/Parentmain.jsx:97-100 | the positions a filter keeps, in increasing order, all kept and none missing |
| Common.FilterMapSelects | src/Parentmain.jsx:97-100 | filter-then-map yields, in order, the image of exactly the kept elements |
| Common.FilterMapAppend | src/Parentmain.jsx:97-100 | filter-then-map distributes over concatenation |
| Common.FilterMapHead | src/Parentmain.jsx:64-72 | the first kept element exists exactly when the filtered list is non-empty, and its image is that list's head |
| JsText.LowerAscii | src/Parentmain.jsx:106 | upper-case ASCII letters move to lower case, everything else is kept |
| JsText.ToLowerAscii | src/Parentmain.jsx:106 | lower-casing keeps the length and maps each character |
| JsText.LeadingWhitespace | src/Parentmain.jsx:80 | the whitespace run that starts the text, ending at the first non-whitespace character |
| JsText.TrailingWhitespace | src/Parentmain.jsx:80 | the whitespace run that ends the text, starting after the last non-whitespace character |
| JsText.TrimStart | src/Parentmain.jsx:80 | a suffix that starts with a non-whitespace character, only whitespace being dropped |
| JsText.TrimEnd | src/Parentmain.jsx:80 | a prefix that ends with a non-whitespace character, only whitespace being dropped |
| JsText.Trim | src/Parentmain.jsx:85 | the slice of the input between its leading and its trailing whitespace: everything dropped on either side is whitespace, and the slice starts and ends with non-whitespace |
| JsText.TrimEmptyIffBlank | src/Parentmain.jsx:80 | trimming leaves nothing exactly when the text is whitespace only, so the filter drops exactly the blank pieces |
| ColorFormat.IsValidColor | src/components/Card.jsx:46-53 | isValidColor: the hex expression or the rgb/rgba expression accepts; the language of each is stated by HexColorShape and IsRgbColorIff |
| ColorFormat.IsHexColor | src/components/Card.jsx:48 | the hex expression; HexColorShape states that it accepts exactly "#" and 3 or 6 hex digits |
| ColorFormat.HexColorShape | src/components/Card.jsx:48 | the hex branch accepts exactly '#' followed by 3 or 6 hex digits of either case |
| ColorFormat.Span | src/components/Card.jsx:49 | the greedy match of \s* or \d+: the longest run of the class, the rest starting outside it |
| ColorFormat.SpanOfRun | src/components/Card.jsx:49 | a run followed by a character outside the class is matched whole |
| ColorFormat.ParseChannel | src/components/Card.jsx:49 | a parsed channel is whitespace, digits, whitespace, and spells the consumed text |
| ColorFormat.PointPrefix | src/components/Card.jsx:49 | splits off the optional point prefix: the prefix is "", "." or "0." and prefix and rest spell the text |
| ColorFormat.PointPrefixOf | src/components/Card.jsx:49 | the point prefix of a well-formed alpha is split off whole, leaving its digits and the rest |
| ColorFormat.ParseDigitsSpace | src/components/Card.jsx:49 | the `\d+\s*` tail of a channel: a non-empty digit run, a whitespace run, spelling the consumed text |
| ColorFormat.ParseDigitsSpaceComplete | src/components/Card.jsx:49 | digits and whitespace followed by a character outside both classes are parsed back |
| ColorFormat.ParseAlpha | src/components/Card.jsx:49 | a parsed alpha is well formed and spells the consumed text |
| ColorFormat.ParseClosing | src/components/Card.jsx:49 | the text after the blue channel is ")" or "," alpha ")" |
| ColorFormat.ParseCommaChannel | src/components/Card.jsx:49 | a comma and a well-formed channel spell the consumed text |
| ColorFormat.ParseGreenBlue | src/components/Card.jsx:49 | the green and blue channels, each after a comma, spell the consumed text |
| ColorFormat.ParseChannels | src/components/Card.jsx:49 | three comma-separated well-formed channels spell the consumed text |
| ColorFormat.SplitName | src/components/Card.jsx:49 | a well-formed function name before "(" is matched whole, leaving the argument list |
| ColorFormat.ParseArgs | src/components/Card.jsx:49 | accepted argument lists are well-formed parts that spell the input |
| ColorFormat.ParseRgb | src/components/Card.jsx:49 | accepted strings are well-formed parts that spell the input |
| ColorFormat.ParseChannelComplete | src/components/Card.jsx:49 | every well-formed channel followed by a non-channel character is parsed back |
| ColorFormat.ParseAlphaComplete | src/components/Card.jsx:49 | every well-formed alpha followed by a non-alpha character is parsed back |
| ColorFormat.ParseClosingComplete | src/components/Card.jsx:49 | every well-formed closing is parsed back |
| ColorFormat.ParseCommaChannelComplete | src/components/Card.jsx:49 | every well-formed comma and channel is parsed back |
| ColorFormat.ParseGreenBlueComplete | src/components/Card.jsx:49 | every well-formed green and blue pair, followed by text that cannot continue a channel, is parsed back |
| ColorFormat.ParseChannelsComplete | src/components/Card.jsx:49 | every three well-formed channels, followed by text that cannot continue a channel, are parsed back |
| ColorFormat.RgbParseRender | src/components/Card.jsx:49 | rendering well-formed parts and parsing the result returns the same parts |
| ColorFormat.IsRgbColor | src/components/Card.jsx:49 | the rgb/rgba expression as a parser; IsRgbColorIff states that it accepts exactly the text well-formed parts spell |
| ColorFormat.IsRgbColorIff | src/components/Card.jsx:49 | the functional branch accepts a string exactly when well-formed parts spell it |
| ColorFormat.HexExamples | src/components/Card.jsx:48 | #121212 and #FFF pass; #12 and #1234 fail |
| ColorFormat.AcceptedParts | src/components/Card.jsx:46-53 | text spelled by well-formed parts is a valid colour |
| ColorFormat.AlphaHalfAccepted | src/components/Card.jsx:49 | rgba(10,20,30,0.5) passes |
| ColorFormat.DefaultShadowAccepted | src/components/Card.jsx:15 | the default shadow colour passes the validator |
| ColorFormat.OutOfRangeChannelAccepted | src/components/Card.jsx:49 | channels are not range-checked: rgb(300,0,0) passes |
| ColorFormat.DecimalOneClosingRefused | src/components/Card.jsx:49 | ",1.0)" is not a valid closing |
| ColorFormat.DecimalOneRefused | src/components/Card.jsx:49 | rgba(0,0,0,1.0) fails |
| ColorFormat.ChannelWithoutComma | src/components/Card.jsx:49 | a first channel followed by anything but a comma makes the colour fail |
| ColorFormat.ClosingRefused | src/components/Card.jsx:49 | three well-formed channels followed by a refused closing make the colour fail |
| ColorFormat.PercentagesRefused | src/components/Card.jsx:49 | rgb(100%,0%,0%) fails |
| ColorFormat.TwoChannelsRefused | src/components/Card.jsx:49 | rgb(1,2) fails |
| ColorFormat.ParenlessRefused | src/components/Card.jsx:46-53 | text that does not start with "#" and has no "(" fails, which covers every colour keyword |
| ColorFormat.KeywordRefused | src/components/Card.jsx:46-53 | the keywords red, rebeccapurple and transparent fail, and so does not-a-color |
| CardMotion.Normalize | src/components/Card.jsx:63-64 | one axis of the pointer coordinate; NormalizeRoundTrip, NormalizeInUnitRange, NormalizeLandmarks and NormalizeMonotonic state what it means |
| CardMotion.NormalizeRoundTrip | src/components/Card.jsx:63-64 | normalising a position and mapping it back are inverse to each other on a non-degenerate axis |
| CardMotion.NormalizeInUnitRange | src/components/Card.jsx:63 | a position is within the rectangle's span exactly when its coordinate is in [-1, 1] |
| CardMotion.NormalizeLandmarks | src/components/Card.jsx:63 | the near edge maps to -1, the centre to 0, the far edge to 1 |
| CardMotion.NormalizeMonotonic | src/components/Card.jsx:63 | the coordinate grows with the position |
| CardMotion.Track | src/components/Card.jsx:56-68 | no sample without a target or with zero width or height; otherwise a sample from which the cursor position is recovered |
| CardMotion.TrackInside | src/components/Card.jsx:63-64 | the sample lies in the unit square exactly when the cursor lies inside the rectangle |
| CardMotion.TrackLandmarks | src/components/Card.jsx:63-64 | the centre gives the neutral sample and the midpoint of the right edge gives (1, 0) |
| CardMotion.Rotate | src/components/Card.jsx:184-197 | rotateX from y and -tilt.y, rotateY from x and tilt.x (tilt 2 for the inner layer); RotateBounded, RotateMonotonic and RotateAdditive state its properties |
| CardMotion.RotateBounded | src/components/Card.jsx:184-186 | the rotations are within the tilt sensitivities for samples in the unit square |
| CardMotion.RotateMonotonic | src/components/Card.jsx:184-186 | moving right turns further about the vertical axis; moving down turns back about the horizontal axis |
| CardMotion.RotateAdditive | src/components/Card.jsx:184-186 | the rotation is linear in the sample |
| CardMotion.DepthTransform | src/components/Card.jsx:77-82 | depthTransform as a pair of translations; DepthTransformBounded bounds them |
| CardMotion.DepthTransformBounded | src/components/Card.jsx:77-82 | a layer moves at most twice its depth factor on each axis |
| CardMotion.DynamicShadow | src/components/Card.jsx:85-92 | dynamicShadow as offsets, blur and colour; DynamicShadowShape states direction, bounds and blur |
| CardMotion.DynamicShadowShape | src/components/Card.jsx:85-92 | the shadow lies opposite the pointer, at most 20 px away, with blur 30 while hovering and 15 otherwise, in the shadow colour |
| CardComponent.Overlay | src/components/Card.jsx:30-32 | the merged settings have every key of either side; the caller's values win; the defaults fill the gaps |
| CardComponent.CheckColor | src/components/Card.jsx:95-104 | accepted exactly for a known colour name and a valid colour; otherwise the first failing check is the reason |
| CardComponent.CheckTilt | src/components/Card.jsx:114-125 | accepted exactly for axis x or y and a number in [0, 20]; otherwise the first failing check is the reason |
| CardComponent.CheckDepth | src/components/Card.jsx:135-145 | accepted exactly for a known element and a number in [0, 3]; otherwise the first failing check is the reason |
| CardComponent.DefaultColors | src/components/Card.jsx:11-16 | the four default colours; DefaultColorsValid shows each passes the validator |
| CardComponent.DefaultTilt | src/components/Card.jsx:18-21 | tilt 5 on both axes; DefaultSettingsInRange shows it is within the enforced range |
| CardComponent.DefaultDepth | src/components/Card.jsx:23-27 | depth 1.2, 0.5 and 0.4; DefaultSettingsInRange shows it is within the enforced range |
| CardComponent.ComputeStyle | src/components/Card.jsx:183-226 | the rotations, shadow, translations and colours of the render; NeutralStyle and StyleBounded state its properties |
| CardComponent.Card.Style | src/components/Card.jsx:183-226 | the style of the card's current state, through ComputeStyle |
| CardComponent.NeutralStyle | src/components/Card.jsx:183-201 | at the neutral sample no layer is turned or moved and the shadow has no offset |
| CardComponent.StyleBounded | src/components/Card.jsx:183-226 | with the pointer inside and settings in range, the outer layer turns at most 20 degrees, the inner at most 2, layers move at most 6 px, and the shadow lies at most 20 px away |
| CardComponent.DefaultColorsValid | src/components/Card.jsx:11-16 | every default colour passes the validator |
| CardComponent.DefaultColorValid | src/components/Card.jsx:11-16 | each default colour, key by key, passes the validator |
| CardComponent.DefaultHexColorsValid | src/components/Card.jsx:12-14 | the three default hex colours pass the validator |
| CardComponent.DefaultSettingsInRange | src/components/Card.jsx:18-27 | the default tilt and depth lie within the ranges the updates enforce |
| CardComponent.FindCardData | src/components/Card.jsx:37-41 | the content of the first entry whose id matches; none exactly when no entry matches |
| CardComponent.Card.constructor | src/components/Card.jsx:30-34 | the state starts as the defaults overlaid by the caller's settings, the neutral sample, not hovering |
| CardComponent.Card.UpdateColor | src/components/Card.jsx:95-111 | on success exactly the named colour changes; on failure nothing changes; the key set is kept |
| CardComponent.Card.UpdateTilt | src/components/Card.jsx:114-132 | on success exactly that axis takes the degree; on failure nothing changes; settings in range stay in range |
| CardComponent.Card.UpdateDepth | src/components/Card.jsx:135-152 | on success exactly that element takes the value; on failure nothing changes; settings in range stay in range |
| CardComponent.Card.MouseMove | src/components/Card.jsx:56-68 | nothing changes without a target or with a degenerate rectangle; otherwise the sample is the normalised position and the card hovers |
| CardComponent.Card.MouseLeave | src/components/Card.jsx:70-74 | back to the neutral sample, not hovering |
| DocsPage.SplitOnMarker | src/Parentmain.jsx:80 | splitting on "\n-" yields at least one piece |
| DocsPage.SplitFirstPiece | src/Parentmain.jsx:80 | the first piece is a prefix of the text |
| DocsPage.SplitJoin | src/Parentmain.jsx:80 | joining the pieces with the marker gives back the text |
| DocsPage.JoinSplit | src/Parentmain.jsx:80 | splitting a join of marker-free pieces gives back the pieces |
| DocsPage.SplitPiecesMarkerFree | src/Parentmain.jsx:80 | no piece contains the marker |
| DocsPage.SplitCount | src/Parentmain.jsx:80 | there is one more piece than there are markers |
| DocsPage.HasMarker | src/Parentmain.jsx:79 | content.includes("\n-"); MarkerCountPositive ties it to the marker count |
| DocsPage.MarkerCountPositive | src/Parentmain.jsx:79 | the text contains the marker exactly when the marker count is positive |
| DocsPage.RenderFormattedContent | src/Parentmain.jsx:75-94 | nothing for absent or empty content; a bullet list exactly when the marker occurs; otherwise the text unchanged |
| DocsPage.BulletItems | src/Parentmain.jsx:80-87 | the split, the filter on trimmed pieces and the trimmed items; BulletItemsArePieces and BulletItemsShape state what they are |
| DocsPage.BulletItemsArePieces | src/Parentmain.jsx:80-87 | item k is the trimmed k-th non-blank piece |
| DocsPage.BulletItemsShape | src/Parentmain.jsx:80-87 | no item is empty or contains the marker; at most one more item than markers |
| DocsPage.TrimmedPieceShape | src/Parentmain.jsx:80-85 | a non-blank marker-free piece trims to a non-empty marker-free item |
| DocsPage.TableOfContents | src/Parentmain.jsx:97-100 | the h3 contents of the description; TableOfContentsSelectsHeadings states the selection |
| DocsPage.TableOfContentsSelectsHeadings | src/Parentmain.jsx:97-100 | the table lists exactly the contents of the h3 items, in order, and is empty without a description |
| DocsPage.FirstHeading | src/Parentmain.jsx:67 | the content of the first h3; FirstHeadingIsFirstEntry ties it to the table of contents |
| DocsPage.FirstHeadingIsFirstEntry | src/Parentmain.jsx:64-72 | the first h3 exists exactly when the table is non-empty, and it is the table's first entry |
| DocsPage.CollapseWhitespace | src/Parentmain.jsx:106 | replace(/\s+/g, "-"); CollapseWhitespaceShape and CollapseRun state what it does |
| DocsPage.Slug | src/Parentmain.jsx:106 | the collapsed title lower-cased; SlugShape and SlugFixedPoint state its properties |
| DocsPage.LeadingRun | src/Parentmain.jsx:106 | a whitespace run before non-whitespace text is counted whole as leading whitespace |
| DocsPage.TrimStartRun | src/Parentmain.jsx:106 | a whitespace run before non-whitespace text is dropped whole |
| DocsPage.CollapseShorter | src/Parentmain.jsx:106 | collapsing never makes the title longer |
| DocsPage.CollapseNoWhitespace | src/Parentmain.jsx:106 | no whitespace is left after collapsing |
| DocsPage.CollapseCons | src/Parentmain.jsx:106 | a leading non-whitespace character is kept |
| DocsPage.CollapseLeadingRun | src/Parentmain.jsx:106 | a leading whitespace run before non-whitespace text becomes one hyphen |
| DocsPage.CollapseWord | src/Parentmain.jsx:106 | a word without whitespace is copied unchanged, whatever follows it |
| DocsPage.CollapseWhitespaceShape | src/Parentmain.jsx:106 | the result has no whitespace, is never longer, and is unchanged for text without whitespace |
| DocsPage.CollapseRun | src/Parentmain.jsx:106 | a word followed by a whitespace run keeps the word and turns the run into one hyphen |
| DocsPage.SlugShape | src/Parentmain.jsx:106 | a slug has no whitespace and no upper-case letter, and is never longer than the title |
| DocsPage.SlugFixedPoint | src/Parentmain.jsx:106 | a title is its own slug exactly when it has slug characters only; slugging is idempotent |
| DocsPage.Href | src/Parentmain.jsx:175 | "#" and the slug; LinksMatchScrollTargets and ScrollToSection tie it to the scroll target |
| DocsPage.LinksMatchScrollTargets | src/Parentmain.jsx:175 | every table link targets the id that a click on it scrolls to, and that id has no whitespace |
| DocsPage.ResolvePage | src/Parentmain.jsx:25-39 | not found exactly when no entry has the title; otherwise the first matching entry, previewed exactly when it is implemented |
| DocsPage.PageState.constructor | src/Parentmain.jsx:22-23 | no active section, not fullscreen |
| DocsPage.PageState.ToggleFullscreen | src/Parentmain.jsx:51-53 | the fullscreen flag flips |
| DocsPage.PageState.ComponentChanged | src/Parentmain.jsx:64-72 | the first table entry becomes the active section; nothing changes when there is none |
| DocsPage.PageState.ScrollToSection | src/Parentmain.jsx:103-111 | the title becomes the active section, and the element looked up is the one whose id is the title's slug |
| DocsPage.ToggleTwice | src/Parentmain.jsx:51-53 | toggling twice restores the fullscreen flag |

## Left out

- The `window.cardAPI` registry (Card.jsx lines 155-176) is not modelled. Two cards with the same id share one slot, and unmounting either of them deletes it.
- Number() coercion of strings, booleans and objects is not modelled. The model takes its result as a given `Option<real>`.
- IEEE double rounding is not modelled; numbers are exact reals.
- Rendering styles into CSS strings is left out: the `px`/`deg` text and `perspective(1000px)`. The style is modelled as numbers.
- CSS transitions and framer-motion animations are left out.
- The image `onError` fallback and the "Untitled"-style fallbacks for missing content fields are presentation only.
- `console.error` output is left out. Each message is the `Rejection` value the validators return.
- `reactElementToJsxString` and the `componentCode` effect are left out: they are a foreign library and DOM refs.
- `document.getElementById` and `scrollIntoView` are DOM calls. `ScrollToSection` returns the id it would look up.
- CodeToggle, ComponentDocumentation, FullscreenViewer, App, Loader, main and LibData are not part of this model. The content tables are parameters.
- Lower-casing covers ASCII letters only; Unicode case mapping of `toLowerCase` is not modelled.
- Explicit `undefined` values in the caller's settings are not modelled. In JavaScript the spread would keep such a key with the value `undefined`.
- Inherited `Object.prototype` property names are not modelled. A title such as "constructor" would find an inherited property in `componentMap`. The model's lookup sees only the three own keys.
- Re-rendering is not modelled, nor the React closure that `updateColor` and `updateDepth` capture. They check the colour and depth key sets, which never change after initialisation, so the captured and current key sets agree.
