# Portfolio page behaviour, modelled in Dafny

This project models the logic behind the interactive parts of a portfolio
page, `script.js`. Rendering, tweening and network access are left out.
The model covers five parts:

- **The particle plexus** (`plexus.dfy`, with the pair enumeration in `pairs.dfy`).
  - Each animation frame moves every particle by its velocity.
  - A velocity component reverses when its coordinate is outside the box of half-extent 400.
  - Every pair closer than 200 outputs one line segment: six numbers, the two particles' coordinates.
  - The frame is a class over the flat position and velocity buffers. Its `Animate` method is proved
    against the functions `NextPositions`, `NextVelocities`, `NearPairs` and `Lines`. Lemmas about those
    functions prove the properties of the frame.
- **The skill graph** (`skill_graph.dfy`).
  - A static table of 15 skills. Each related name that resolves to a skill gives one edge: 32 for the shipped table.
  - The renderer highlights the edges that leave a skill closer than 150 to the pointer.
  - It focuses the skills closer than 100 to the pointer.
  - A canvas event gives the pointer: the mouse position, the first touch point, or a far-away
    sentinel when the mouse leaves.
- **The three global keydown listeners** (`keystrokes.dfy`), each a class with one keydown method.
  Each method is proved against a pure step function:
  - the Konami code matcher;
  - the 20-character buffer that opens the console when "whoami" is typed;
  - the buffer that starts the "neural dump" overlay when the typed keys end with "ml".
- **The GitHub repository cards** (`repos.dfy`). The page keeps the repositories with a non-blank
  description, sorts them by stars from most to fewest and keeps the first three. `Array.prototype.sort`
  is stable, so the sort is modelled as a stable insertion sort.
- **The device-orientation handler** (`tilt.dfy`). Each tilt angle is clamped to ±20 degrees, then
  scaled into the targets of the arch and camera tweens.

Shared pieces:

- `text.dfy` has JavaScript's `toLowerCase`, `endsWith`, `includes`, `slice(-n)` and `trim` on strings of Unicode scalar values (Dafny characters).
- `wrappers.dfy` has `Option`.
- `sequences.dfy` has small facts about sequence slices.

Coordinates, distances and angles are Dafny `real`s.

Two facts about the code shape the model:

- Orientation events do not move the graph pointer: `handleOrientation` only starts the arch and camera
  tweens (script.js:507-528). The graph pointer comes only from canvas events and window resizes.
- A coordinate can end a frame up to one velocity step outside the box, with its velocity already
  reversed; `Plexus.FrameKeepsContained` proves that invariant.

## Model

| member | source | states |
|---|---|---|
| Plexus.Plexus.constructor | script.js:10-28 | the buffers hold the given start positions and velocities, three numbers per particle |
| Plexus.Plexus.Integrate | script.js:50-57 | particle i's three coordinates move by its velocity; each velocity component is negated exactly when its new coordinate's magnitude exceeds 400; every other particle is unchanged |
| Plexus.Plexus.LinkPair | script.js:59-69 | called when particle i has already moved this frame and particles i + 1 onward have not (its requires on the buffer), the inner-loop body for pair (i, j) outputs the pair's segment, read from the buffer, exactly when the pair is linked in the frame, and nothing otherwise |
| Plexus.Plexus.LinkRow | script.js:59-70 | the inner loop outputs the segments of the linked pairs (i, j), j > i, in increasing j |
| Plexus.Plexus.Advance | script.js:49-71 | one outer iteration steps particle i and appends the segments of row i to those of the earlier rows |
| Plexus.Plexus.Animate | script.js:46-71 | after a frame the positions are the moved positions, the velocities the reflected ones, and `lineCoords` is the concatenated segments of exactly the linked pairs in loop order |
| Plexus.Reflect | script.js:55-57 | a velocity component is negated exactly when its moved coordinate's magnitude is strictly above 400 |
| Plexus.NextPositions | script.js:51-53 | every coordinate moved by its velocity component |
| Plexus.NextVelocities | script.js:55-57 | every velocity component reflected by `Reflect` at its moved coordinate |
| Plexus.NearInFrame | script.js:59-66 | pair (i, j) is linked when particle i's moved position and particle j's not-yet-moved position are closer than 200 (squared distance below 200 squared) |
| Plexus.NearPairs | script.js:49-70 | the pairs i < j < n the double loop links, in loop order |
| Plexus.Segment | script.js:67-68 | the six numbers a linked pair pushes: particle i's moved coordinates, then particle j's |
| Plexus.Lines | script.js:66-69 | the line buffer: the segments of the given pairs, concatenated in order |
| Plexus.NearPairsExact | script.js:59-66 | (i, j) is among the frame's linked pairs iff i < j < n and the pair is closer than 200; the test is strict |
| Plexus.NearPairsOrdered | script.js:49-70 | the linked pairs come in strictly increasing lexicographic order, so none appears twice |
| Plexus.NearPairsInBuffer | script.js:49-70 | every linked pair indexes particles inside the buffer |
| Plexus.LinesLength | script.js:67-68 | the line buffer holds exactly 6 numbers per linked pair |
| Plexus.LinesAt | script.js:67-68 | numbers 6k..6k+6 of the line buffer are the segment of the k-th pair |
| Plexus.FrameSegmentAt | script.js:59-69 | the k-th segment of a frame runs from the moved particle i to the not-yet-moved particle j |
| Plexus.StepKeepsAxisContained | script.js:51-57 | one step keeps a coordinate at most one step outside the box and heading back in, and keeps its speed |
| Plexus.SteppedAll | script.js:49-57 | once every particle has stepped, the buffers hold the next positions and velocities |
| Plexus.FrameKeepsContained | script.js:49-57 | a frame never changes a particle's speed on any axis and keeps every coordinate contained |
| Plexus.InitialStateContained | script.js:15-26 | the start state (positions in [-400, 400], velocity components in [-0.5, 0.5]) is contained |
| Plexus.BounceScenario | script.js:51-55 | a coordinate at 399 with speed 5 overshoots to 404, reverses, and is back at 399 the next frame |
| Plexus.ThreeParticleLinks | script.js:61-66 | particles at 0, 50 and 250 on one axis: 50 apart is linked, 250 and exactly 200 are not |
| Plexus.ThreeParticleScenario | script.js:46-71 | for those particles the frame links only (0, 1) and outputs exactly their six coordinates |
| Pairs.RowPairsMember | script.js:59-70 | a row of the double loop holds exactly the kept pairs (i, j) with i < j below its bound |
| Pairs.RowPairsOrdered | script.js:59-70 | a row's pairs are strictly increasing |
| Pairs.PairsBeforeMember | script.js:49-71 | the first i rows hold exactly the kept pairs whose first index is below i |
| Pairs.RowFollows | script.js:49-71 | every pair of an earlier row precedes every pair of row i |
| Pairs.PairsBeforeOrdered | script.js:49-71 | the first i rows are strictly increasing |
| Pairs.AllPairsExact | script.js:49-71 | the double loop over n particles visits exactly the kept pairs i < j < n |
| Pairs.AllPairsOrdered | script.js:49-71 | the double loop visits pairs in strictly increasing lexicographic order, without duplicates |
| Pairs.AllPairsOfThree | script.js:49-71 | for three particles the loop examines (0, 1), (0, 2), (1, 2) in that order |
| Pairs.FlattenAppend | script.js:67-68 | the output of two runs of pairs is the outputs of each, in order |
| Pairs.RowOutIsFlatten | script.js:59-70 | the inner loop's output is the segments of the row's kept pairs, in order |
| Pairs.FrameOutIsFlatten | script.js:49-71 | the outer loop's output is the segments of all kept pairs so far, in order |
| SkillGraph.Find | script.js:370 | `skillData.find` by name, as the index of the first skill with that name, or none |
| SkillGraph.Pixel | script.js:366-367 | a percent coordinate times the canvas side over 100 |
| SkillGraph.NodeAt | script.js:389-390 | a skill's pixel position on a canvas of the given size |
| SkillGraph.Links | script.js:365-386 | the edges in drawing order: skill by skill, and for each skill one per related name that `find` resolves |
| SkillGraph.DrawEdge | script.js:372-383 | an edge from the source's pixel position to the target's, accent and width 2 when the pointer is closer than 150 to the source, faint and width 1 otherwise |
| SkillGraph.DrawNode | script.js:389-402 | a skill's dot and caption, radius 6, accent and a white bold caption when the pointer is closer than 100, radius 4 and faint otherwise |
| SkillGraph.FindFrom | script.js:370 | `find` gives the first skill with the name; no skill before it has that name; none is found iff no skill has it |
| SkillGraph.RelatedLinks | script.js:369-371 | a skill's edges all leave that skill and end at a skill in the table; there are at most as many as related names |
| SkillGraph.LinksFrom | script.js:365-386 | edges from skills a onward leave a skill at a or later and end in the table |
| SkillGraph.RelatedLinksMember | script.js:369-371 | an edge from skill a to b exists iff some related name of a finds b |
| SkillGraph.LinksFromMember | script.js:365-386 | an edge from skills a onward exists iff its source is at a or later and its source's related names give it |
| SkillGraph.LinksMember | script.js:365-386 | an edge is drawn iff some related name of its source skill finds its target |
| SkillGraph.RelatedLinksCount | script.js:369-371 | a skill has one edge per related name iff every related name resolves |
| SkillGraph.LinksFromCount | script.js:365-386 | at most one edge per related name; exactly one iff every related name resolves |
| SkillGraph.ResolvingCount | script.js:369-371 | how many of a list of related names resolve, a repeated name counted each time |
| SkillGraph.RelatedLinksResolving | script.js:369-371 | a skill draws exactly one edge per related name that resolves, repeats included |
| SkillGraph.ResolvingTotal | script.js:365-386 | how many related names of the skills from a on resolve |
| SkillGraph.LinksFromResolving | script.js:365-386 | the skills from a on draw exactly one edge per related name that resolves |
| SkillGraph.RepeatedNameDrawsTwice | script.js:369-371 | a skill relating to B, B and a missing name draws the edge to B twice and nothing for the missing name |
| SkillGraph.ShippedLinks | script.js:328-344 | the shipped table draws 32 edges, one per related name |
| SkillGraph.ShippedRelatedTotal | script.js:328-344 | the shipped table lists 32 related names |
| SkillGraph.ResolvesIffNamed | script.js:370-371 | a related name resolves iff it is one of the table's names |
| SkillGraph.AllNamedResolve | script.js:369-371 | if every related name is a table name, every related name resolves |
| SkillGraph.ShippedNamesResolve | script.js:328-344 | every related name in the shipped table resolves, so no edge is skipped |
| SkillGraph.RenderGraph | script.js:360-404 | one frame draws one edge per link and one node per skill |
| SkillGraph.EdgeRule | script.js:365-386 | edge k runs from its source's pixel position to its target's; it is highlighted (accent, width 2) iff the pointer is closer than 150 to the source, otherwise faint with width 1 |
| SkillGraph.HighlightFollowsSource | script.js:375-382 | two edges leaving the same skill have the same stroke and width |
| SkillGraph.NodeRule | script.js:388-403 | node k is skill k's dot labelled with its name; it is focused (radius 6, accent, white bold label) iff the pointer is closer than 100, otherwise radius 4 with faint colours |
| SkillGraph.SentinelIsFar | script.js:360 | the default pointer (-1000, -1000) is never within 150 or 100 of a skill on a canvas of non-negative size |
| SkillGraph.DefaultPointerShowsNothing | script.js:360-404 | rendering with the default pointer highlights no edge and focuses no node |
| SkillGraph.PointerOf | script.js:406-416 | a touch event without touches gives no pointer; leaving the canvas, or a resize, gives the default pointer |
| SkillGraph.ResizeShowsNothing | script.js:355-358 | a window resize re-renders with the default pointer, so nothing is highlighted or focused |
| SkillGraph.PointerRoundTrip | script.js:406-411 | a mouse or first touch point at the canvas origin plus q gives pointer q |
| SkillGraph.SqlScenario | script.js:333 | on a 1000 x 800 canvas SQL sits at (100, 520), and a pointer there focuses it |
| Keystrokes.KonamiStep | script.js:617-632 | the index stays below the code length; firing happens only on the last entry and restarts at 0; any mismatch restarts at 0 without firing |
| Keystrokes.KonamiAfter | script.js:613-634 | the index after any keys is below the code length |
| Keystrokes.KonamiFiresAt | script.js:617-625 | the god mode fires on the last key of a history exactly when the matcher's step on that key, from the index the earlier keys leave, fires |
| Keystrokes.KonamiIndexIsMatchedSuffix | script.js:617-630 | the index is the length of a suffix of the keys that equals the start of the code |
| Keystrokes.KonamiFiringKey | script.js:617-623 | the god mode fires only on the code's last key, typed when the index is 7 |
| Keystrokes.MatchedSuffixGrows | script.js:617-619 | a matched suffix followed by the expected key is a matched suffix one longer |
| Keystrokes.KonamiFiredMeansCode | script.js:617-625 | when the god mode fires, the last 8 keys are the code |
| Keystrokes.KonamiCodeAdvances | script.js:617-619 | typing the code from index 0 moves the index up by one per key |
| Keystrokes.KonamiCodeQuiet | script.js:619-623 | typing the code from index 0 does not fire before its last key |
| Keystrokes.KonamiCodeLast | script.js:615-634 | typing the whole code from index 0 fires on its last key |
| Keystrokes.KonamiRunFires | script.js:615-634 | keys ending with the code typed from index 0 fire on the last key and not before |
| Keystrokes.KonamiCodeFires | script.js:615-634 | from any key sequence that leaves the index at 0, the code fires exactly on its last key |
| Keystrokes.KonamiMissesOverlappingStart | script.js:606-634 | up, up, then the code (whose last 8 keys are the code) never fires: the third up restarts the matcher |
| Keystrokes.KonamiListener.constructor | script.js:613 | the listener starts at index 0 with no keys seen |
| Keystrokes.KonamiListener.KeyDown | script.js:615-634 | the handler takes one matcher step on the lower-cased key; the index stays the matcher's state for the keys seen; god mode fires iff the matcher fires |
| Keystrokes.SecretStep | script.js:549-564 | the buffer stays at most 20 long and never holds "whoami"; the console opens iff the last 20 typed characters contain "whoami" |
| Keystrokes.SecretOpensOnlyAtEnd | script.js:551-556 | from a buffer without the word, a one-character key opens the console iff the typing now ends with "whoami" |
| Keystrokes.SecretAfter | script.js:547-564 | after any non-empty run of keys the buffer is at most 20 long and never holds the word |
| Keystrokes.WhoamiKeys | script.js:551-556 | the keys w, h, o, a, m, i lower-case to the word's letters; only the last is an i |
| Keystrokes.SecretTypingStep | script.js:551-560 | from a buffer ending with the first k letters, key k opens the console iff it is the last letter, and otherwise extends the match |
| Keystrokes.SecretTypingPrefix | script.js:547-564 | typing the first n < 6 letters never opens the console and leaves them at the end of the buffer |
| Keystrokes.TypingWhoamiOpensConsole | script.js:547-564 | from any buffer the listener can hold, typing whoami opens the console on the i and not before |
| Keystrokes.SecretListener.constructor | script.js:547 | the buffer starts empty |
| Keystrokes.SecretListener.KeyDown | script.js:549-564 | the handler keeps the buffer within 20 characters and free of the word, and does what the step function says |
| Keystrokes.DumpStep | script.js:283-301 | the buffer never ends with "ml"; the dump starts iff the typing ends with "ml"; otherwise all typing is kept |
| Keystrokes.TypingMlStartsDump | script.js:284-285 | from any buffer the listener can hold, m then l (either case) starts the dump on the l and not on the m |
| Keystrokes.DumpListener.constructor | script.js:282 | the buffer starts empty |
| Keystrokes.DumpListener.KeyDown | script.js:283-301 | the handler keeps the buffer from ending with "ml", and does what the step function says |
| Text.EndsWith | script.js:285 | `endsWith`: the string's last characters are the word |
| Text.Contains | script.js:556 | `includes`: the word occurs at some position of the string |
| Text.Trim | script.js:667 | `trim`: white space and line terminators removed from both ends |
| Text.LowerChar | script.js:284 | an upper-case ASCII letter maps to its lower-case letter; every other character is unchanged |
| Text.Lower | script.js:284 | lower-casing keeps the length and lower-cases each character |
| Text.LowerOfLowerCase | script.js:551 | a key with no upper-case letter is its own lower case |
| Text.EndsWithContains | script.js:556 | a string ending with the word contains it |
| Text.LastN | script.js:553-554 | `slice(-n)` keeps the last min(n, length) characters, a suffix of the string |
| Text.LastNKeepsShortSuffix | script.js:553-554 | cutting to n characters keeps any suffix of length at most n |
| Text.ContainsInSuffix | script.js:553-556 | a word in the cut buffer was in the uncut typing |
| Text.NewOccurrenceAtEnd | script.js:551-556 | a word that appears when one character is appended ends there |
| Text.EndsWithAppend | script.js:551 | appending a character to both a string and its suffix keeps the suffix relation |
| Text.TrimStart | script.js:667 | the result is a suffix of the text, starts with no white space, and only white space was removed |
| Text.TrimEnd | script.js:667 | the result is a prefix of the text, ends with no white space, and only white space was removed |
| Text.TrimEmptyIffBlank | script.js:667 | a trimmed text is empty iff every character is white space |
| Repos.HasDescription | script.js:667 | the filter's test: a description is present and does not trim to the empty string |
| Repos.Described | script.js:666-667 | the repositories that pass the filter, in API order |
| Repos.Insert | script.js:669 | a repository placed before the first one with at most as many stars |
| Repos.SortByStars | script.js:669 | the comparator sort, as a stable insertion sort by stars, most first |
| Repos.HasDescriptionIffVisibleText | script.js:667 | a repository passes the filter iff it has a description with a character that is not white space |
| Repos.DescribedMember | script.js:666-667 | a repository survives the filter iff it is in the list and has a non-blank description |
| Repos.DescribedKeepsAll | script.js:666-667 | when every repository has a description, the filter keeps the list as it is |
| Repos.WithStars | script.js:669 | the repositories with a given star count, in order |
| Repos.InsertMultiset | script.js:669 | inserting adds exactly the inserted repository |
| Repos.InsertNonIncreasing | script.js:669 | inserting into a list with non-increasing stars keeps it non-increasing |
| Repos.InsertWithStars | script.js:669 | a repository inserted among equally starred ones goes before them |
| Repos.SortIsPermutation | script.js:669 | the sort is a permutation of its input |
| Repos.SortIsNonIncreasing | script.js:669 | the sorted stars are non-increasing |
| Repos.SortIsStable | script.js:669 | repositories with equal stars keep their input order |
| Repos.Shown | script.js:666-671 | at most three repositories are shown |
| Repos.PrefixIsTop | script.js:669-671 | no repository cut from a sorted list has more stars than one kept |
| Repos.ShownCountAndOrder | script.js:666-671 | min(3, number described) repositories are shown, by non-increasing stars |
| Repos.ShownDescribed | script.js:666-671 | the shown repositories are a sub-multiset of the described ones; each is in the list and has a non-blank description |
| Repos.ShownAreTop | script.js:666-671 | no described repository that is left out has more stars than a shown one |
| Repos.ShownKeepsTies | script.js:669-671 | the shown repositories with a given star count are the first ones with that count, in API order |
| Repos.WithStarsOfPrefix | script.js:671 | a prefix keeps, for each star count, a prefix of the repositories with that count |
| Repos.VisibleFirstIsDescribed | script.js:667 | a description whose first character is not white space survives trimming |
| Repos.ScenarioDescribed | script.js:666-667 | of a, blank b, c, d the filter keeps a, c, d |
| Repos.ScenarioSorted | script.js:669 | stars 5, 9, 5 sort to the 9 first, then the two 5s in input order |
| Repos.ShownScenario | script.js:666-671 | a (5 stars), b (40 stars, blank description), c (9), d (5) show as c, a, d |
| Tilt.Clamp | script.js:511-512 | the clamped value lies within the range, and a value inside the range is unchanged |
| Tilt.ClampIsNearest | script.js:511-512 | the clamped value is the point of the range nearest the input |
| Tilt.ClampMonotone | script.js:511-512 | a larger angle never clamps to a smaller one |
| Tilt.ClampIdempotent | script.js:511-512 | clamping twice is clamping once |
| Tilt.TiltMoves | script.js:508-512 | both moves lie in [-20, 20] |
| Tilt.Targets | script.js:507-528 | the arch moves by at most 40, turns by at most 4, and the camera moves by at most 100 on each axis |
| Tilt.RestIsCentred | script.js:507-528 | a phone upright at 45 degrees front-back and level leaves everything centred |
| Tilt.TargetsSaturate | script.js:511-516 | within the range the arch follows twice the tilt; beyond it the targets equal those at the edge |
| Tilt.TargetsMonotone | script.js:511-523 | tilting further right never moves the arch or the camera left |

Lemmas that are single proof steps (unfolding one definition, one slice identity, or one part of a concrete check split for the solver) are helpers and have no row.

## Left out

- Floating point: JavaScript numbers and the Float32 position buffer are modelled as reals, so rounding is not modelled.
- `Math.sqrt` and `Math.hypot` are not modelled. A distance is compared with a threshold by comparing the squared distance with the squared threshold, which is the same over the reals.
- The random start state (`randFloatSpread`, `randFloat`) is a constructor argument. `Plexus.InitialStateContained` states the ranges those calls produce.
- The plexus count is a constructor argument rather than the constant 120, so the proofs hold for any count.
- The velocities are `THREE.Vector3` objects in the source. They are modelled as one flat buffer with the same three-per-particle layout as the positions.
- Three.js scene management is not modelled: removing and re-adding the line object, the mouse-driven camera and the render call.
- `requestAnimationFrame` scheduling is not modelled: a call of `Animate` is one frame.
- The canvas drawing calls are not modelled. A frame is modelled as the list of styled edges and nodes it draws, in order.
- The accent colour read from the stylesheet is the symbolic colour `Accent`.
- The canvas size (`initGraph`, the resize listener) is modelled as width and height arguments.
- The `skills` table (script.js:304-324) is not used by the renderer. It is outside this model, and so are the legacy `drawGraph` (script.js:174) and the container touch listener that calls it (script.js:421).
- SkillGraph.PointerOf: a touch event with no touch points makes the source throw. It is modelled as `None`: no frame is drawn.
- Touch `preventDefault` and the passive-listener options are browser behaviour and are not modelled.
- Text.LowerChar / Text.Lower / Text.LastN: Dafny strings are sequences of Unicode scalar values, while JavaScript strings are sequences of UTF-16 code units. A character outside the Basic Multilingual Plane counts 1 here and 2 in JavaScript, so `secretInput.length > 20` and `slice(-20)` (script.js:553-554) can cut the buffer at a different place; `slice(-20)` can even split a surrogate pair, which no Dafny string can hold. `toLowerCase` is modelled on ASCII letters only and always keeps the length, whereas JavaScript lower-cases non-ASCII capitals and can lengthen a string ("İ" becomes "i̇", two code units). So typing w, h, o, a, m, İ opens the console in the page but not in the model.
- Keystrokes: key names are taken as given by the browser.
- The effects of the three listeners are not modelled: `openConsole`'s terminal, `activateGodMode`'s filter tween, and the neural-dump overlay with its interval and timeout. Each step function reports only whether the effect fires.
- Keystrokes.KonamiListener.KeyDown: `history` is a ghost record of the keys seen. It exists only to state what the index means and has no counterpart in the source.
- Keystrokes.DumpListener.KeyDown: the source never trims `keys`, so it grows without bound until "ml" is typed. The model keeps that behaviour, and no length bound is claimed.
- The listeners run in the same keydown event, but they share no state, so their relative order is not modelled.
- Repos: `fetch`, JSON decoding and the card markup built with `innerHTML` are not modelled. The model takes the decoded list, reduced to the fields the cards use.
- Repos: a `description` that is present but is not a string is not modelled. The API returns a string or null, which is modelled as `Option<string>`.
- Repos: star counts are natural numbers. The comparator `b - a` is modelled as the ordering it induces.
- Tilt: the GSAP tweens' easing and duration are not modelled, only the target values.
- Tilt: `gsap.utils.clamp` is library code outside this repository. It is modelled as GSAP defines it.
- Tilt: the iOS permission request in `enableTilt` is not modelled.
- Tilt: null or NaN angles from devices without a sensor are not modelled.
- The page's other scripts are outside this model: scroll animations, the lens effect, the console commands, and theme and UI code.
