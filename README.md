# TwiML generator core, modelled in Dafny

The TwiML generator reads a TwiML document, which is Twilio's XML dialect of call
and messaging "verbs". It prints a program in Python, Java, C#, Ruby, Node or PHP
that builds the same document with Twilio's helper library. This project models
the in-memory half of that generator:

- **The IR.** `TwimlIR` and `TwimlIRVerb`.
  - `twimlir.dfy` models the verb as a class with mutable name, attributes, text
    and variable name. The IR keeps its verbs in an arena: each verb holds its
    parent's index, and the IR holds each verb's children as an index list.
  - `parse_xml` folds the parser's start/end event stream into this arena. It
    tracks the innermost open verb and the SSML window, which is open inside a
    `Say` that has child elements.
  - `clean_text` and `clean_attributes` prepare a verb's text and attributes.
  - `__iter__` (depth-first `start`/`leaf`/`end` events), `reverse_iter`
    (children before their parent) and `get_verb_names` are loops over explicit
    stacks and visited sets.
  - `tree.dfy` states what these traversals produce on the tree's shape, a
    `seq<Node>`.
- **The normalisation passes.** These rewrite a verb's name, attributes and text
  in place before code is emitted.
  - `specificity.dfy`, `ops.dfy`, `java.dfy`, `csharp.dfy`, `ruby.dfy`,
    `python.dfy`, `node.dfy` and `php.dfy` model the `specificity` package:
    - the attribute helpers `rename_attr`, `to_list`, `attr_to_list`,
      `to_bytes`, `to_enum` and `to_uri`;
    - the `Language` registry;
    - each language's handler classes and `clean`.
  - `inline.dfy` models the generator's own `clean_*_specificities` methods,
    which differ from the package.
  - `passes.dfy` is the shared loop: a step run on the verb of every traversal
    event, in order, on the arena in place.
- **The emitter.** `emitter.dfy` holds the pure helpers:
  - naming styles and `class_for_verb_name`;
  - indentation and `output_padded_code`;
  - quoting and escaping;
  - one attribute's value text, and the join of the attributes.

  `generator.dfy` holds `TwimlCodeGenerator` as a class. Its methods are
  `variable_for_verb` with its numbering loop, `quote_text_for_verb`,
  `build_attributes_for_verb`, `join_appends`, the `output_*` line builders,
  `__repr__` and `__reverse_repr__`. `emission.dfy` counts the lines the two
  builds emit per verb.

  `LinesMade` states what each emitted line is. The line is the template of its
  kind applied to arguments, after `()` has been dropped a counted number of times
  (only under `optional_parentheses`). The templates are `new_variable` or
  `new_block`, `new_leaf`, `append` and `new_text`. `ArgsFor` ties the arguments to
  the verb in the document as it was before the build:
  - the verb's final variable name and its parent's;
  - its class and its joined attributes;
  - its quoted text and its method name;
  - its right-stripped tail and its indent.
- **Tree equality.** `elements.dfy` models `etree_element_eq`, the comparison that
  decides whether the printed TwiML matches the original document.

The language specification (a JSON file in the repository) is a given
`LanguageSpec` record. Its `str.format` templates are opaque functions of their
arguments. The XML schema that types attributes is a given map from element type
to attribute types. The parser is a given list of start/end events.

## Model

| member | source | states |
|---|---|---|
| Strings.Strip | twiml_generator/twimlir.py:106-112 | `str.strip()` leaves no whitespace at either end, and gives the empty string exactly when the input is all whitespace. |
| Strings.StripParts | twiml_generator/twimlir.py:106-112 | What `strip` removes is whitespace before and after the result, and nothing else. |
| Strings.StripNoop | twiml_generator/twimlir.py:106-112 | Stripping a string that starts and ends with non-whitespace changes nothing. |
| Strings.StripNoChar | twiml_generator/twimlir.py:106-112 | Stripping never introduces a character. |
| Strings.Split | twiml_generator/twimlir.py:106-112 | `split` on one character gives at least one part, no part holds the separator, and a string without it is its own only part. |
| Strings.JoinSplit | twiml_generator/twimlir.py:106-112 | Joining the parts of a split with the separator gives the original string. |
| Strings.SplitJoin | twiml_generator/specificity/__init__.py:25-30 | Splitting a join of separator-free parts gives the parts back. |
| Strings.JoinNoChar | twiml_generator/twimlir.py:106-112 | A character in neither the parts nor the separator is not in the joined string. |
| Strings.NatToString | twiml_generator/twiml_code_generator.py:227-229 | `str(number)` is one or more decimal digits, two or more from 10 on. |
| Strings.NatToStringInjective | twiml_generator/twiml_code_generator.py:227-229 | Different numbers have different decimal spellings, so the suffixes tried are all different. |
| Strings.Upper | twiml_generator/specificity/java.py:30-35 | `upper()` keeps the length and upper-cases each ASCII letter. |
| Strings.Lower | twiml_generator/twiml_code_generator.py:224 | `lower()` keeps the length and lower-cases each ASCII letter. |
| Strings.ReplaceChar | twiml_generator/specificity/java.py:34 | `replace('.', '_')` keeps the length and leaves no `.`. |
| Strings.SortedList | twiml_generator/twimlir.py:173 | `sorted(list(s))`: each element of the set once, in increasing string order. |
| Strings.LessTotal | twiml_generator/twimlir.py:173 | Python's string order is total. |
| Strings.LessTransitive | twiml_generator/twimlir.py:173 | Python's string order is transitive. |
| Inflection.Pascalize | twiml_generator/twiml_code_generator.py:12 | `pascalize` upper-cases the first character and is never longer than its input; a word without `_` changes only in its first character. |
| Inflection.Camelize | twiml_generator/twiml_code_generator.py:22-23 | `camelize` is `pascalize` with the first character lower-cased. |
| Inflection.Underscore | twiml_generator/specificity/java.py:34 | `underscore` leaves no upper-case letter and no `-`. |
| Inflection.UnderscoreIdempotent | twiml_generator/specificity/java.py:34 | `underscore` of an underscored string changes nothing. |
| Attributes.Get | twiml_generator/twimlir.py:114-126 | `d.get(k)` is the value of the entry with key `k`, and absent exactly when no entry has that key. |
| Attributes.Put | twiml_generator/specificity/common.py:4-7 | `d[k] = v` keeps the keys and their order when `k` is present, otherwise appends the entry `(k, v)`. |
| Attributes.Pop | twiml_generator/specificity/common.py:4-7 | After `d.pop(k)` the key `k` is absent; a dict without `k` is unchanged. |
| Attributes.GetPut | twiml_generator/specificity/common.py:4-7 | After `d[k] = v`, `k` holds `v` and every other key what it held. |
| Attributes.GetPop | twiml_generator/specificity/common.py:4-7 | After `d.pop(k)`, `k` is absent and every other key holds what it held. |
| Attributes.PutDistinct | twiml_generator/specificity/common.py:4-7 | Assigning a key keeps keys unique. |
| Attributes.PopDistinct | twiml_generator/specificity/common.py:4-7 | Removing a key keeps keys unique. |
| Attributes.PutSame | twiml_generator/specificity/java.py:42-46 | Storing the value a key already holds changes nothing. |
| Attributes.PutTwice | twiml_generator/specificity/csharp.py:56 | Assigning a key twice keeps only the second value, in the place the first assignment gave it. |
| Attributes.SameKeysSameGet | twiml_generator/specificity/java.py:42-46 | Two dicts with the same keys in the same order and the same values are the same dict. |
| Attributes.PutElsewhere | twiml_generator/specificity/java.py:42-46 | Assigning a present key changes its value and nothing else. |
| Attributes.FromPairs | twiml_generator/twimlir.py:181 | `dict(attrib)` has exactly the keys of the parser's pairs. |
| Attributes.FromPairsEntries | twiml_generator/twimlir.py:181 | With distinct keys, `dict(attrib)` has one entry per pair: entry `i` is pair `i`'s key with its value as a `str`, in the parser's order. |
| Attributes.FromPairsGet | twiml_generator/twimlir.py:181 | For any pairs, each key of `dict(attrib)` holds the `str` value of the last pair with that key. |
| Tree.DescRoot | twiml_generator/twimlir.py:128-143 | Every verb lies below the root. |
| Tree.DescComparable | twiml_generator/twimlir.py:128-143 | Two verbs above a common verb lie on one chain. |
| Tree.DescViaChild | twiml_generator/twimlir.py:128-143 | A strict descendant of a verb lies below one of its children, and conversely. |
| Tree.DescOfLeaf | twiml_generator/twimlir.py:194-196 | The subtree of a leaf is the leaf alone. |
| Tree.DescPrefix | twiml_generator/twimlir.py:92-96 | Appending verbs to the arena leaves ancestry among the existing verbs unchanged. |
| Tree.AddChildWellFormed | twiml_generator/twimlir.py:92-96 | Appending a new last child keeps the shape well formed and every old parent link. |
| Tree.AddChildParents | twiml_generator/twimlir.py:92-96 | After appending a child, every non-root verb has an earlier parent that lists it. |
| Tree.AddChildChildren | twiml_generator/twimlir.py:92-96 | After appending a child, every listed child is a later verb whose parent is the lister. |
| Tree.AddChildSorted | twiml_generator/twimlir.py:92-96 | After appending a child, every children list is still in document order. |
| Tree.VisitMembers | twiml_generator/twimlir.py:128-143 | A subtree's events are exactly the events of the right kind for its verbs. |
| Tree.KidsSplit | twiml_generator/twimlir.py:135-141 | The subtrees of a children list come one after the other, in list order. |
| Tree.FwdMembers | twiml_generator/twimlir.py:128-143 | `__iter__` yields `start` and `end` for the root and for every verb with children, and `leaf` for every other verb, and nothing else. |
| Tree.FwdNoDup | twiml_generator/twimlir.py:128-143 | No event occurs twice in the traversal. |
| Tree.FwdVisits | twiml_generator/twimlir.py:128-143 | The traversal meets every verb. |
| Tree.SubtreeBlock | twiml_generator/twimlir.py:128-143 | Each non-root verb's events form one contiguous block of the traversal: `start`, then all its descendants' events, then `end`. |
| Tree.ChildSplit | twiml_generator/twimlir.py:135-141 | The events of a verb's earlier siblings come before its own, those of later siblings after. |
| Tree.SiblingSubtreesDisjoint | twiml_generator/twimlir.py:128-143 | Subtrees of two different children share no event. |
| Tree.SiblingsNoCommonDesc | twiml_generator/twimlir.py:128-143 | No verb lies below two different children of one parent. |
| Tree.VisitNoDup | twiml_generator/twimlir.py:128-143 | No event occurs twice in a subtree's events. |
| Tree.ExpandPush | twiml_generator/twimlir.py:135-141 | Pushing the reversed entries of a children list puts their subtrees' events first, in list order. |
| Tree.RevItemsKids | twiml_generator/twimlir.py:135-141 | The reversed entries of a children list stand for the children's subtrees in list order. |
| Tree.ExpandStackAppend | twiml_generator/twimlir.py:130-143 | A stack pushed on top of another stands for its own events first. |
| Tree.DownClosedRoot | twiml_generator/twimlir.py:145-164 | A downward closed set of verbs that holds the root holds every verb. |
| Tree.ExpandLowersWeight | twiml_generator/twimlir.py:157-159 | Replacing a verb with children by its children on the stack lowers the termination measure. |
| Tree.SiblingsSameParent | twiml_generator/twimlir.py:220-225 | `siblings` is exactly the set of other verbs with the same parent. |
| Tree.LeafIffNoChild | twiml_generator/twimlir.py:194-196 | `is_leaf` holds exactly when no verb names this one as parent. |
| Tree.ChildrenCardinality | twiml_generator/twimlir.py:157 | `set(verb.children)` has as many elements as the list. |
| Tree.SomeChildOutside | twiml_generator/twimlir.py:157 | When `len(set(children) & visited) < len(children)`, some child is unvisited. |
| Tree.NoChildOutside | twiml_generator/twimlir.py:157 | When that test fails, every child is visited. |
| Tree.FirstLeaf | twiml_generator/twimlir.py:147-152 | Following first children from a verb reaches a leaf below it. |
| Tree.AncestorsLater | twiml_generator/twimlir.py:145-164 | In an order that lists every verb after its children, each verb comes no later than the verbs above it. |
| Tree.RootLast | twiml_generator/twimlir.py:145-164 | Such an order ends with the root. |
| Tree.ReverseTraversal | twiml_generator/twimlir.py:145-164 | The `reverse_iter` loop yields each verb exactly once, every verb after all its children, starting at the first leaf; it terminates. |
| Tree.RevStep | twiml_generator/twimlir.py:155-164 | One pass of the loop keeps the invariant and lowers the measure: more verbs visited, or the same with a lighter stack. |
| Tree.SkipKeeps | twiml_generator/twimlir.py:156-157 | Skipping a visited verb keeps the invariant. |
| Tree.ExpandKeeps | twiml_generator/twimlir.py:157-159 | Replacing an unvisited verb by its children, one of them unvisited, keeps the invariant. |
| Tree.ExpandStarted | twiml_generator/twimlir.py:157-159 | A verb with unvisited children is not the first leaf, so something was yielded already. |
| Tree.RevDone | twiml_generator/twimlir.py:155 | When the stack runs empty the root has been yielded, so every verb has. |
| Tree.YieldKeeps | twiml_generator/twimlir.py:160-164 | Yielding an unvisited verb whose children are all visited, after pushing its parent and siblings, keeps the invariant. |
| Tree.BoundedCard | twiml_generator/twimlir.py:145-164 | At most `n` verbs can be visited, which bounds the loop. |
| Tree.PushFamily | twiml_generator/twimlir.py:160-162 | The yield step pushes the parent, when there is one, and then the siblings. |
| Tree.PushAll | twiml_generator/twimlir.py:162 | `queue.extend(s)` for a set: the old queue, then each element of `s` once, in some order. |
| TwimlIr.Verb.constructor | twiml_generator/twimlir.py:179-192 | A new verb's name has `-` replaced by `_`; it copies the attributes; it has no variable name; its depth is one more than its parent's, or 0. |
| TwimlIr.CleanText | twiml_generator/twimlir.py:106-112 | `None` exactly for absent or blank text; a cleaned text holds no newline character, since lines are joined by the two characters `\n`. |
| TwimlIr.CleanTextStrippedLines | twiml_generator/twimlir.py:106-112 | Text whose lines carry no surrounding whitespace, and whose first and last lines are not empty, only has its newlines replaced by `\n`. |
| TwimlIr.CleanTextOneLine | twiml_generator/twimlir.py:106-112 | One line without surrounding whitespace comes out unchanged. |
| TwimlIr.CleanTextIdempotent | twiml_generator/twimlir.py:106-112 | Cleaning cleaned text changes nothing. |
| TwimlIr.CleanFoldErr | twiml_generator/twimlir.py:114-126 | Cleaning fails, always with ValueError, exactly when some `xs:int` attribute is not an integer. |
| TwimlIr.CleanFoldOk | twiml_generator/twimlir.py:114-126 | A successful clean appends one entry per attribute, in document order, holding its cleaned value: the integer for an `xs:int` attribute, the string otherwise. |
| TwimlIr.CleanAttributesUntyped | twiml_generator/twimlir.py:116-118 | For an element type the schema does not describe, cleaning never fails. Each key holds the `str` of the last pair with that key. With distinct keys, entry `i` is pair `i` as a `str`, in document order. |
| TwimlIr.TwimlIR.CleanAttributes | twiml_generator/twimlir.py:114-126 | The loop computes exactly `CleanAttributesSpec`, which `CleanFoldErr` and `CleanFoldOk` characterise. |
| TwimlIr.FirstErrorSticks | twiml_generator/twimlir.py:72-104 | Once the stream has failed, later events do not change the error. |
| TwimlIr.OpenSaysPush | twiml_generator/twimlir.py:87-88 | Opening a verb adds it to the open list; it counts for the SSML window when it is a `Say` with child elements. |
| TwimlIr.SsmlAboveNew | twiml_generator/twimlir.py:77-96 | A new child of the innermost open verb lies inside a `Say` with child elements exactly when one is open. |
| TwimlIr.SsmlAddChild | twiml_generator/twimlir.py:77-96 | Adding a verb under the innermost open verb, flagged exactly while such a `Say` is open, keeps the SSML flags sound and complete. |
| TwimlIr.NewVerb | twiml_generator/twimlir.py:79-86 | The verb built from a start event has no `-` in its name and no variable name, and its depth is one more than its parent's, or 0. |
| TwimlIr.BuildSticks | twiml_generator/twimlir.py:72-104 | An error stays the error of the whole parse whatever follows. |
| TwimlIr.StepEnd | twiml_generator/twimlir.py:98-104 | An end event fails exactly when no verb is open, and otherwise keeps what has been built. |
| TwimlIr.ParseStep | twiml_generator/twimlir.py:76-104 | One event keeps the parse state's indices in range (`Sane`). |
| TwimlIr.Build | twiml_generator/twimlir.py:72-104 | Folding the events keeps the parse state's indices in range (`Sane`). |
| TwimlIr.EndKeeps | twiml_generator/twimlir.py:100 | Closing the innermost open verb makes its parent `latest_verb`. |
| TwimlIr.StepStartError | twiml_generator/twimlir.py:77-96 | A start event fails exactly as the stream specification says: ValueError for a bad `xs:int` attribute, an unsupported document for a second `Response`, AttributeError for a verb with nothing open. |
| TwimlIr.AddStartShape | twiml_generator/twimlir.py:92-96 | Adding a verb under `l` adds one last child to `l` and keeps the tree well formed. |
| TwimlIr.AddStartMirrors | twiml_generator/twimlir.py:77-96 | Adding a verb keeps the IR mirroring the stream, extends the path of open verbs and keeps the SSML flags complete. |
| TwimlIr.AddStartVoice | twiml_generator/twimlir.py:89-90 | `is_voice_response` stays true only while no start is a `Message`. |
| TwimlIr.AddStartVerbs | twiml_generator/twimlir.py:77-96 | The verbs already built keep their contents and parents; the new one is built from the event under `l`. |
| TwimlIr.RootBuilt | twiml_generator/twimlir.py:91-92 | The root `Response` starts the document. |
| TwimlIr.BuildBuilt | twiml_generator/twimlir.py:72-104 | `parse_xml` fails exactly as the stream specification says, and otherwise builds the IR the stream describes. |
| TwimlIr.BuildOutcome | twiml_generator/twimlir.py:72-104 | When the parse passes, the verbs are the starts in document order and the parents are the verbs open at each start. Each non-root verb is in exactly one children list, in document order. `is_voice_response` is false exactly when a `Message` starts. With no `Say` nested in another, the SSML flags are exactly the verbs inside a `Say` with child elements. |
| TwimlIr.TwimlIR.constructor | twiml_generator/twimlir.py:47-52 | Before parsing: no verbs, a voice response, no generated variable names. |
| TwimlIr.TwimlIR.ParseXml | twiml_generator/twimlir.py:72-104 | The loop over the events ends with the error of the first failing event, or with the arena equal to `Build` of the stream. |
| TwimlIr.TwimlIR.ParseEvents | twiml_generator/twimlir.py:76-104 | The loop keeps the arena equal to `Build` of the events seen so far. |
| TwimlIr.TwimlIR.ParseEvent | twiml_generator/twimlir.py:77-104 | One turn raises exactly the event's error, or leaves the state `ParseStep` gives. |
| TwimlIr.TwimlIR.ParseStart | twiml_generator/twimlir.py:77-96 | The start branch raises exactly the event's error, or adds the verb and updates the flags. |
| TwimlIr.TwimlIR.AddVerbFromStart | twiml_generator/twimlir.py:79-96 | A start that does not fail appends the verb under `latest_verb` (or makes it the root). It opens the SSML window at a `Say` with children and makes the response a messaging one at a `Message`. |
| TwimlIr.TwimlIR.MakeVerb | twiml_generator/twimlir.py:79-86 | The new verb object holds what `NewVerb` says, and is fresh. |
| TwimlIr.TwimlIR.Push | twiml_generator/twimlir.py:92-96 | Appends a new childless verb to the arena and to its parent's children. |
| TwimlIr.TwimlIR.Iter | twiml_generator/twimlir.py:128-143 | The explicit-stack loop yields exactly the traversal `Tree.Fwd` of the IR's shape. |
| TwimlIr.TwimlIR.ReverseIter | twiml_generator/twimlir.py:145-164 | Every verb once, each after all its children, the root last. |
| TwimlIr.TwimlIR.GetVerbNames | twiml_generator/twimlir.py:166-173 | The sorted names of the verbs the traversal meets, without duplicates, leaving SSML verbs out when asked. |
| TwimlIr.TwimlIR.CollectNames | twiml_generator/twimlir.py:168-172 | The names gathered are names of the IR's verbs and include the name of every non-excluded verb of the events. |
| Specificity.RenameAttr | twiml_generator/specificity/__init__.py:3-6 | `rename_attr` leaves the attributes alone when the key is absent, and keeps keys unique. |
| Specificity.RenameAttrMoves | twiml_generator/specificity/common.py:4-7 | After a rename, the new key holds the old key's value, the old key is gone, and every other key is unchanged. |
| Specificity.RenameAttrSettles | twiml_generator/specificity/common.py:4-7 | Unless both names are equal, the old key is absent afterwards. |
| Specificity.DoNothing | twiml_generator/specificity/__init__.py:9-10 | `do_nothing` is the identity. |
| Specificity.ToList | twiml_generator/specificity/__init__.py:13-32 | An absent or raw value is left alone and gives False. A `str` with a space, or any `str` under `force`, is listified and gives True. It fails exactly on an `int` or `None`. Other keys are unchanged. |
| Specificity.ToListStores | twiml_generator/specificity/__init__.py:25-30 | What is stored is the list literal, or the transformed single token; it is still a `str`. |
| Specificity.ToListAgain | twiml_generator/specificity/__init__.py:23-25 | A listified value is still a `str`, so a forced second `to_list` listifies it again. |
| Specificity.ListLiteralPlain | twiml_generator/specificity/__init__.py:25-30 | With the identity transform and template, listifying replaces each space by `', '`. |
| Specificity.AttrToList | twiml_generator/specificity/common.py:10-29 | Like `to_list`, except that an absent or falsy transform keeps each token. A single unforced token with no transform raises TypeError. |
| Specificity.AttrToListPlain | twiml_generator/specificity/common.py:22-27 | Without a transform, `attr_to_list` lists the tokens themselves. |
| Specificity.ToBytes | twiml_generator/specificity/__init__.py:35-42 | A present `str` becomes raw and nothing else changes; an absent or raw value is left alone; it fails exactly on an `int` or `None`. |
| Specificity.ToBytesKeepsText | twiml_generator/specificity/common.py:32-39 | `to_bytes` keeps the characters and only marks them raw. |
| Specificity.ToBytesIdempotent | twiml_generator/specificity/common.py:32-39 | `to_bytes` is idempotent. |
| Specificity.CapitalisedNotKeyword | twiml_generator/specificity/java.py:16 | A capitalised verb name is never a Python statement keyword, so `eval` does not fail on it. |
| Specificity.RegistryKey | twiml_generator/specificity/common.py:45-48 | The key is the class's `name` attribute when it has one, and its class name otherwise. |
| Specificity.RunProcess | twiml_generator/specificity/ruby.py:16-74 | A text-moving `process` moves non-empty text into its attribute and sets the text to `None`. A blank-text `process` puts one space in place of empty text. Neither changes the name. |
| Specificity.RunProcessIdempotent | twiml_generator/specificity/ruby.py:16-74 | A registered `process` run twice leaves the verb as one run does. |
| Specificity.VerbProcessing | twiml_generator/specificity/common.py:50-55 | The class registered under the verb's name processes it. An unregistered name is left alone. A language whose `_classes` is `None` fails. |
| Specificity.VerbProcessingIdempotent | twiml_generator/specificity/common.py:50-55 | A second dispatch reaches the same class and changes nothing. |
| Specificity.Language.constructor | twiml_generator/specificity/common.py:42-44 | A language starts with the given class registry (or `None`). |
| Specificity.Language.Register | twiml_generator/specificity/common.py:45-48 | `register` stores the class under its key and returns it; with `_classes` `None` it fails and changes nothing. |
| AttrOps.ToEnum | twiml_generator/specificity/java.py:42-46 | `to_enum` rewrites a present `str` into the enum constant, leaves an absent or raw one alone, and fails on an `int` or `None`. |
| AttrOps.Apply | twiml_generator/specificity/__init__.py:3-42 | One helper call on a verb's attributes, with the imports it adds. |
| AttrOps.RunTracks | twiml_generator/specificity/java.py:49-204 | What a list of calls is sure to leave raw or absent is so after a successful run. |
| AttrOps.RunQuiet | twiml_generator/specificity/java.py:49-204 | Calls that are all no-ops on the current attributes leave them as they are. |
| AttrOps.RunImports | twiml_generator/specificity/java.py:24-27 | A run adds at least the imports a no-op run of the same calls adds. |
| AttrOps.RunTwice | twiml_generator/specificity/java.py:49-204 | A list of calls that settles every key it touches changes nothing on a second run, and adds no new import. |
| JavaHandlers.Process | twiml_generator/specificity/java.py:49-204 | Every class keeps the name. Attribute-only classes fail exactly when their calls fail and keep the text. `Enqueue` moves the text to `queueName`, sets the text to `None`, keeps every other attribute and adds no import. `Play` keeps its attributes, adds no import and gives empty text one space. |
| JavaHandlers.VerbProcessing | twiml_generator/specificity/java.py:9-21 | A name that is a statement keyword fails to evaluate. A name of one of the fifteen classes runs it. Any other name leaves the verb and the imports alone. |
| JavaHandlers.CallsSelfQuiet | twiml_generator/specificity/java.py:49-204 | Every attribute-only class leaves each key it works on raw, or renamed away. |
| JavaHandlers.CallsTwice | twiml_generator/specificity/java.py:42-84 | Attribute-only classes are idempotent and add no import on a second run. |
| JavaHandlers.PlayTwice | twiml_generator/specificity/java.py:87-92 | `Play` is idempotent. |
| JavaHandlers.EnqueueTwiceLosesText | twiml_generator/specificity/java.py:79-84 | `Enqueue` is not idempotent: a second run puts `None` in `queueName`. |
| JavaHandlers.ListImportWhenConverted | twiml_generator/specificity/java.py:24-27 | The Java `to_list` adds the `Arrays` import exactly when it built a list. |
| JavaHandlers.EventedSteps | twiml_generator/specificity/java.py:95-106 | `_Evented` is its three calls one after the other. |
| JavaHandlers.EventedResult | twiml_generator/specificity/java.py:95-106 | With several events, `statusCallbackEvents` gets the raw `Arrays.asList` of the constants and the import is added. With one event it gets the bare raw constant and no import. |
| JavaHandlers.EventedStored | twiml_generator/specificity/java.py:104-106 | The stored text becomes raw and moves to `statusCallbackEvents`. |
| CSharpHandlers.Process | twiml_generator/specificity/csharp.py:59-95 | Each class keeps the name. `Prompt` and `Pay` keep the text and fail exactly when their calls fail. `Play` stores the raw `new Uri` of its text (one space when the text is empty) and adds `using System;`. |
| CSharpHandlers.VerbProcessing | twiml_generator/specificity/csharp.py:8-19 | A statement-keyword name fails. `Prompt`, `Pay` and `Play` run their class. Any other name leaves the verb and the imports alone. |
| CSharpHandlers.CallsTwice | twiml_generator/specificity/csharp.py:59-85 | `Prompt` and `Pay` are idempotent on the verb, and a second run adds only imports the first added. |
| CSharpHandlers.ListAlwaysBuilt | twiml_generator/specificity/csharp.py:22-25 | Every C# `to_list` adds the `Linq` import, and a forced single token is listified too. |
| CSharpHandlers.PlayResult | twiml_generator/specificity/csharp.py:88-95 | `Play` always succeeds; its text is the raw `new Uri` of the text, or of one space. |
| CSharpHandlers.PlayNotIdempotent | twiml_generator/specificity/csharp.py:88-95 | A second `Play` formats the bytes as `b'...'` and wraps them in a second `new Uri`. |
| CSharpHandlers.ToUri | twiml_generator/specificity/csharp.py:48-56 | `to_uri` replaces a present value that is not `bytes` by the `str` `new Uri("<value>")` of its formatted form, with nothing escaped or marked raw. An absent or raw value, and every other key, is left alone. |
| CSharpHandlers.ToUriTwice | twiml_generator/specificity/csharp.py:52-56 | `to_uri` is not idempotent: its result is still a `str`, so a second call wraps it in a second `new Uri`. |
| CSharpHandlers.ToUriThenBytes | twiml_generator/specificity/csharp.py:52-56 | `to_uri` then `to_bytes` stores the raw `new Uri` in the key's place, and repeating `to_uri` on that result changes nothing. |
| RubyLanguage.Setup | twiml_generator/specificity/ruby.py:16-74 | The module body registers the six classes in source order. |
| RubyLanguage.StepMovesText | twiml_generator/specificity/ruby.py:16-74 | For one of the six names, non-empty text moves into its attribute, overwriting it, and the text becomes `None`. Otherwise the verb is unchanged. |
| RubyLanguage.StepIdempotent | twiml_generator/specificity/ruby.py:9-13 | With a registry, the step never raises and is idempotent. |
| RubyLanguage.CleanProcessesOnce | twiml_generator/specificity/ruby.py:9-13 | `clean` visits verbs with children twice, yet every verb ends as after one `verb_processing`. |
| RubyLanguage.CleanWithoutRegistryFails | twiml_generator/specificity/common.py:50-55 | A language without a registry raises on the first verb. |
| RubyLanguage.Clean | twiml_generator/specificity/ruby.py:9-13 | `Ruby.clean` runs `verb_processing` on the verb of every event, in place; no import is added. |
| PythonLanguage.Setup | twiml_generator/specificity/python.py:31-37 | The module body registers `Play`. |
| PythonLanguage.BoolLiterals | twiml_generator/specificity/python.py:25-28 | `'true'` and `'false'` become the raw literals `True` and `False`. |
| PythonLanguage.BooleansKeys | twiml_generator/specificity/python.py:25-28 | The boolean loop keeps the keys and their order. |
| PythonLanguage.BooleansIdempotent | twiml_generator/specificity/python.py:25-28 | No `'true'` or `'false'` is left, so a second run changes nothing. |
| PythonLanguage.BooleansGet | twiml_generator/specificity/python.py:25-28 | Each value is mapped on its own; other values are unchanged. |
| PythonLanguage.ConvertBooleans | twiml_generator/specificity/python.py:25-28 | The loop on the verb object leaves exactly the converted attributes. |
| PythonLanguage.ConvertEntry | twiml_generator/specificity/python.py:26-28 | One pass: the value of entry `i` camelized then made raw, the others unchanged. |
| PythonLanguage.ProcessedSpec | twiml_generator/specificity/python.py:21-37 | `Play` with empty text gets one space, no other name is dispatched, and the booleans are converted whatever the name. |
| PythonLanguage.ProcessVerb | twiml_generator/specificity/python.py:21-28 | `verb_processing` on the verb object changes exactly attributes and text, as `Processed` says. |
| PythonLanguage.CleanStepSpec | twiml_generator/specificity/python.py:13-19 | One run: an SSML verb gets `ssml_`; `from` and `for` move to `from_` and `for_`; an empty `Play` gets one space. |
| PythonLanguage.CleanSsmlName | twiml_generator/specificity/python.py:13-15 | As written, an SSML verb with children ends `ssml_ssml_<name>`; every other SSML verb ends `ssml_<name>`. |
| PythonLanguage.CleanOnceSsmlName | twiml_generator/specificity/python.py:13-15 | Visiting each verb once prefixes every SSML verb exactly once. |
| PythonLanguage.Clean | twiml_generator/specificity/python.py:9-19 | `Python.clean` runs its body on the verb of every event, in place; no import is added. |
| PythonLanguage.CleanOnce | twiml_generator/specificity/python.py:9-19 | The corrected `clean`: each verb visited once. |
| NodeLanguage.SsmlName | twiml_generator/specificity/node.py:11-13 | The SSML name is `ssml` then the name with its first letter and each letter after `_` upper-cased. |
| NodeLanguage.CleanStepSpec | twiml_generator/specificity/node.py:10-13 | The body touches only the name of an SSML verb. |
| NodeLanguage.CleanSsmlName | twiml_generator/specificity/node.py:10-13 | As written, an SSML verb with children is renamed twice, every other once. No attributes or texts change. |
| NodeLanguage.ProsodyRenamedTwice | twiml_generator/specificity/node.py:10-13 | `<prosody>` with children ends `ssmlSsmlProsody`. |
| NodeLanguage.ProsodyRenamedOnce | twiml_generator/specificity/node.py:10-13 | The intended name is `ssmlProsody`. |
| NodeLanguage.CleanOnceSsmlName | twiml_generator/specificity/node.py:10-13 | Visiting each verb once renames every SSML verb exactly once. |
| NodeLanguage.Clean | twiml_generator/specificity/node.py:8-13 | `Node.clean` runs its body on the verb of every event, in place; no import is added. |
| NodeLanguage.CleanOnce | twiml_generator/specificity/node.py:8-13 | The corrected `clean`: each verb visited once. |
| NodeLanguage.RegisterOnNode | twiml_generator/specificity/node.py:6 | `Node` inherits `_classes = None`, so `register` raises. |
| PhpLanguage.CleanStepIdempotent | twiml_generator/specificity/php.py:8-10 | The body never raises and a second run changes nothing. |
| PhpLanguage.CleanResult | twiml_generator/specificity/php.py:6-10 | `break` becomes `break_`. Every other name, and all attributes and texts, are unchanged. |
| PhpLanguage.Clean | twiml_generator/specificity/php.py:6-10 | `PHP.clean` on the IR in place; no import is added. |
| PhpLanguage.RegisterOnPhp | twiml_generator/specificity/php.py:4 | `PHP` inherits `_classes = None`, so `register` raises. |
| Passes.Assign | twiml_generator/twiml_code_generator.py:337-453 | A pass changes only name, attributes, text and variable name. |
| Passes.RunPass | twiml_generator/twimlir.py:128-143 | A successful pass keeps each verb's tail, SSML flag, parent and depth. |
| Passes.PassPerVerb | twiml_generator/twimlir.py:128-143 | What a successful pass leaves in a verb is the step repeated once per visit. |
| Passes.RunPassLast | twiml_generator/twimlir.py:128-143 | The last event changes its verb through one more step and no other verb. |
| Passes.FwdCount | twiml_generator/twimlir.py:128-143 | The step runs twice on the root and on verbs with children, once on others; skipping `end` events, once on every verb. |
| Passes.TwiceIsOnce | twiml_generator/twimlir.py:128-143 | For an idempotent step, two visits equal one. |
| Passes.IdempotentPassOnce | twiml_generator/twimlir.py:128-143 | With an idempotent step the pass as written equals the pass that visits each verb once. |
| Passes.DocPassPerVerb | twiml_generator/twimlir.py:128-143 | Over a document, verb `j` ends with the step repeated once per visit. |
| Passes.RunPassTotal | twiml_generator/twimlir.py:128-143 | With a step that never raises, the pass never raises. |
| Passes.IdempotentPass | twiml_generator/twimlir.py:128-143 | With a total idempotent step every verb ends as after one run. |
| Passes.DocPassNoImport | twiml_generator/twimlir.py:128-143 | A step that adds no import gives a pass that adds none. |
| Passes.DocPassFailing | twiml_generator/twimlir.py:128-143 | A step that always raises gives a pass that raises. |
| Passes.RunPassFails | twiml_generator/twimlir.py:128-143 | An exception part way ends the whole pass with it. |
| Passes.PassKeepsDoc | twiml_generator/twimlir.py:128-143 | A pass keeps parents, depths and children lists. |
| Passes.SetVerb | twiml_generator/twiml_code_generator.py:339-347 | Assigns the fields of one verb object in place; the arena mirrors the verb list with that entry replaced. |
| Passes.ApplyPass | twiml_generator/twiml_code_generator.py:337-453 | The pass in place: fails exactly when `DocPass` fails, otherwise the verbs and imports are those `DocPass` gives and the tree is unchanged. |
| Passes.RunEvents | twiml_generator/twimlir.py:128-143 | The loop over the collected events keeps the arena equal to `RunPass` of the events so far. |
| InlinePasses.JavaEnumize | twiml_generator/twiml_code_generator.py:392-399 | An absent or raw value is left alone. A present `str` becomes the raw `<verb>.<Attr>.<VALUE>`. An `int` or `None` fails. Other keys are unchanged. |
| InlinePasses.JavaEnumizeMatchesModule | twiml_generator/twiml_code_generator.py:392-399 | `java_enumize` equals the package's `to_enum` then `to_bytes`. |
| JavaHandlers.EnumConstant | twiml_generator/specificity/java.py:30-35 | The constant part of `enum_name` holds no `.` and no lower-case letter. |
| InlinePasses.JavaBranch | twiml_generator/twiml_code_generator.py:345-390 | The `if`/`elif` chain never renames the verb nor touches its variable name. |
| InlinePasses.JavaStep | twiml_generator/twiml_code_generator.py:339-390 | The loop body assigns only the four pass fields. |
| InlinePasses.JavaStepSsml | twiml_generator/twiml_code_generator.py:340-344 | An SSML verb gets class `pascalize('ssml_'+name)`, variable `camelize('ssml_'+name)`, and its import. |
| InlinePasses.JavaSsmlNamesClash | twiml_generator/twiml_code_generator.py:341 | Two SSML elements of one kind without attributes get the same variable name. |
| InlinePasses.JavaStepOkWithoutAttributes | twiml_generator/twiml_code_generator.py:339-390 | With no attributes, the loop body cannot fail. |
| InlinePasses.JavaEventsSpec | twiml_generator/twiml_code_generator.py:359-367 | A present `str` always becomes raw `Arrays.asList(...)` under `statusCallbackEvents`; the old key goes and the import is added. |
| InlinePasses.JavaStepEvents | twiml_generator/twiml_code_generator.py:359-367 | `Client`, `Number` and `Sip` take that branch with their own name. |
| InlinePasses.SingleEventDiffers | twiml_generator/twiml_code_generator.py:359-367 | For one event the inline pass stores `Arrays.asList(...)` and adds the import; the package stores the bare constant. |
| InlinePasses.JavaStepConference | twiml_generator/twiml_code_generator.py:368-378 | `Conference` enumizes `beep` and `record`, then lists events with prefix `Conference`. |
| InlinePasses.JavaStepConferenceEvents | twiml_generator/twiml_code_generator.py:368-378 | The list built for `Conference` is the same as `Client`'s, with the class prefix `Conference`. |
| InlinePasses.JavaStepEnqueue | twiml_generator/twiml_code_generator.py:345-347 | `Enqueue`: the text, whatever it is, goes to `queueName` and becomes `None`. |
| InlinePasses.JavaCleanEnqueue | twiml_generator/twiml_code_generator.py:337-347 | As written, an `Enqueue` with children ends with `None` in `queueName`. |
| InlinePasses.JavaCleanOnceEnqueue | twiml_generator/twiml_code_generator.py:337-347 | Visiting once keeps the text in `queueName`. |
| InlinePasses.JavaCleanSsmlName | twiml_generator/twiml_code_generator.py:337-344 | As written, an SSML verb with children ends `SsmlSsml<Name>`. |
| InlinePasses.JavaCleanOnceSsmlName | twiml_generator/twiml_code_generator.py:337-344 | Visiting once renames every SSML verb exactly once. |
| InlinePasses.CleanJava | twiml_generator/twiml_code_generator.py:337-390 | `clean_java_specificities` in place: fails exactly when the pass does, otherwise leaves its verbs and imports. |
| InlinePasses.CleanJavaOnce | twiml_generator/twiml_code_generator.py:337-390 | The corrected pass, each verb visited once. |
| InlinePasses.PythonStepMatchesModule | twiml_generator/twiml_code_generator.py:401-412 | Without `for`, the inline body equals `Python.clean`'s. |
| InlinePasses.PythonStepKeepsFor | twiml_generator/twiml_code_generator.py:401-412 | With `for` and no `from`, only the package renames it. |
| InlinePasses.CleanPython | twiml_generator/twiml_code_generator.py:401-412 | `clean_python_specificities` in place; no import. |
| InlinePasses.CamelTailNoDash | twiml_generator/twiml_code_generator.py:418 | `pascalize` adds no `-`. |
| InlinePasses.CSharpStepSpec | twiml_generator/twiml_code_generator.py:414-428 | SSML verbs are renamed. An empty `Play` gets one space. A messaging `Redirect` moves its text to `url`. The `say-as` branch never fires. |
| InlinePasses.NamesHaveNoDash | twiml_generator/twimlir.py:180 | No parsed name holds `-`, so none equals `say-as`. |
| InlinePasses.CleanCSharp | twiml_generator/twiml_code_generator.py:414-428 | `clean_csharp_specificities` in place; no import. |
| InlinePasses.RubyStepIdempotent | twiml_generator/twiml_code_generator.py:430-448 | The body never raises, adds no import, and is idempotent. |
| InlinePasses.RubyStepMatchesModule | twiml_generator/twiml_code_generator.py:430-448 | `Play`, `Message` and `Dial` come out as from `Ruby.clean`. |
| InlinePasses.RubySayDiffers | twiml_generator/twiml_code_generator.py:445-448 | `Say` gets the same `message`, but its text becomes `''` here and `None` in the package. |
| InlinePasses.RubyLeavesEnqueueClient | twiml_generator/twiml_code_generator.py:430-448 | Only the package moves `Enqueue` and `Client` text. |
| InlinePasses.RubyCleanOnce | twiml_generator/twiml_code_generator.py:430-448 | Every verb ends as after one run, despite two visits. |
| InlinePasses.CleanRuby | twiml_generator/twiml_code_generator.py:430-448 | `clean_ruby_specificities` in place; no import. |
| Emitter.Styled | twiml_generator/twiml_code_generator.py:233-242 | Camel and Pascal forms differ only in the first letter's case. The lower form has the same length with each letter lower-cased. |
| Emitter.ClassForVerbName | twiml_generator/twiml_code_generator.py:248-259 | `Response` becomes the voice or messaging class. Other names are pascalized and wrapped by `new_klass` when present. |
| Emitter.ResponseClass | twiml_generator/twiml_code_generator.py:248-259 | Only the root's class depends on the response kind. |
| Emitter.ClassesOfVerbs | twiml_generator/twiml_code_generator.py:244-259 | The root gets its kind's class; other verbs the pascal-style name, wrapped by `new_klass`. |
| Emitter.IndentForVerb | twiml_generator/twiml_code_generator.py:314-315 | Four spaces per level of `depth + depth_padding`, none when not positive. |
| Emitter.OutputPaddedCode | twiml_generator/twiml_code_generator.py:210-212 | The block ends with a newline. |
| Emitter.PaddedCodeLines | twiml_generator/twiml_code_generator.py:210-212 | Splitting the block, final newline dropped, at its newlines gives back each line behind the padding. |
| Emitter.UnescapeEscape | twiml_generator/twiml_code_generator.py:269 | Reading the escaped text back gives the text, for any quote other than backslash. |
| Emitter.EscapeStart | twiml_generator/twiml_code_generator.py:269 | Escaped text never starts with a bare quote. |
| Emitter.Escape | twiml_generator/twiml_code_generator.py:269 | The escaped text is never shorter, and a text without the quote character comes out unchanged. |
| Emitter.TextLiteral | twiml_generator/twiml_code_generator.py:269-270 | The literal starts and ends with the quote character. |
| Emitter.TextLiteralRoundTrip | twiml_generator/twiml_code_generator.py:266-270 | The literal's body reads back as the text. |
| Emitter.QuoteText | twiml_generator/twiml_code_generator.py:266-276 | The formatted literal, and without attributes one leading, else one trailing, `', '` dropped. |
| Emitter.AttributeValue | twiml_generator/twiml_code_generator.py:296-310 | The map hit, bare booleans under `use_boolean`, quoted `str`, raw verbatim, else `repr`. |
| Emitter.RawVerbatim | twiml_generator/twiml_code_generator.py:306-307 | Raw values are emitted as they are and add no import. |
| Emitter.Entries | twiml_generator/twiml_code_generator.py:288-312 | One entry per attribute, in dict order. |
| Emitter.EntryImportsMembers | twiml_generator/twiml_code_generator.py:298-301 | An import is added exactly when some map hit names it. |
| Emitter.JoinAttributes | twiml_generator/twiml_code_generator.py:278-286 | Empty exactly for no attributes; otherwise the joined entries in the wrapper. |
| Generator.CandidateInjective | twiml_generator/twiml_code_generator.py:225-229 | Different attempts give different names. |
| Generator.TriedBound | twiml_generator/twiml_code_generator.py:227-229 | `n` attempts already taken are at least `n` names. |
| Generator.FreshAttempt | twiml_generator/twiml_code_generator.py:225-229 | The first attempt whose name is free; every earlier one was taken. |
| Generator.FirstFreeName | twiml_generator/twiml_code_generator.py:225-229 | The `while` loop returns the first free name. |
| Generator.WrittenBack | twiml_generator/twiml_code_generator.py:265-266 | `' '` becomes `''`; any other text stays. |
| Generator.QuotedVerbText | twiml_generator/twiml_code_generator.py:261-276 | Empty for empty or absent text. `' '` is quoted as `''`. Any other text is quoted as it is. |
| Generator.BuildEntries | twiml_generator/twiml_code_generator.py:288-312 | The loop builds exactly `Entries` and the map imports. |
| Generator.DropParentheses | twiml_generator/twiml_code_generator.py:99-100 | Only the last line changes: each `()` found scanning it left to right is removed once, and a `()` the removal forms stays. |
| Generator.ProgressStep | twiml_generator/twiml_code_generator.py:85-100 | One more event keeps the loop's invariant and adds its own lines. |
| Generator.ForwardFacts | twiml_generator/twiml_code_generator.py:85-100 | After the traversal, every verb is named. A verb is recorded as appended exactly when it is a non-root verb with children, not detached, whose `append` text (from its final name and its parent's) is not empty. |
| Generator.AppendTextKept | twiml_generator/twiml_code_generator.py:188-195 | Once a verb and its parent are named, handing out more names leaves its `append` text unchanged. |
| Generator.EndRuleKept | twiml_generator/twiml_code_generator.py:91-94 | Handing out more names keeps the decision on an `end` event's append line, `EndRule`. |
| Generator.TraversalOf | twiml_generator/twimlir.py:128-143 | A traversal with no repeated event that creates each verb once has, at every index, an event that is new and creates no verb created before it. |
| Generator.Init | twiml_generator/twiml_code_generator.py:38-65 | Runs the language's clean-up, or fails exactly when it does. The generator holds its imports and the verbs' names as left. |
| Generator.CleanSpecificities | twiml_generator/twiml_code_generator.py:54-65 | Dispatch on the language to its inline pass, or nothing. |
| Generator.TwimlCodeGenerator.constructor | twiml_generator/twiml_code_generator.py:38-54 | The fields `__init__` sets: spec, IR, imports, names. |
| Generator.TwimlCodeGenerator.DistinctNames | twiml_generator/twiml_code_generator.py:214-231 | With no preset names, named verbs have different names. |
| Generator.TwimlCodeGenerator.PresetNamesClash | twiml_generator/twiml_code_generator.py:216-218 | Verbs that shared a preset name still share it. |
| Generator.TwimlCodeGenerator.VariableForVerb | twiml_generator/twiml_code_generator.py:214-231 | `''` for no verb; the existing name unchanged; else the first free styled name, stored on the verb and in the set. |
| Generator.TwimlCodeGenerator.QuoteTextForVerb | twiml_generator/twiml_code_generator.py:261-276 | Returns `QuotedVerbText` and writes `' '` back as `''`, touching no other verb. |
| Generator.TwimlCodeGenerator.BuildAttributesForVerb | twiml_generator/twiml_code_generator.py:288-312 | One entry per attribute; the map imports join `specific_imports`. |
| Generator.TwimlCodeGenerator.JoinAttributesForVerb | twiml_generator/twiml_code_generator.py:278-286 | `JoinAttributes` of the verb, with its imports. |
| Generator.TwimlCodeGenerator.OutputNewText | twiml_generator/twiml_code_generator.py:180-186 | The right-stripped tail added to the parent, which is named if it was not. |
| Generator.TwimlCodeGenerator.OutputAppend | twiml_generator/twiml_code_generator.py:188-195 | The append line; parent and verb end up named. |
| Generator.TwimlCodeGenerator.OutputNewLeaf | twiml_generator/twiml_code_generator.py:168-178 | The leaf line from parent, method, text, attributes, class, variable and indent, in the source's order of side effects. |
| Generator.TwimlCodeGenerator.JoinAppends | twiml_generator/twiml_code_generator.py:317-335 | Nothing without `chained_append`. Otherwise the children's pieces, each child named. In Java a child with a shown tail is detached from its parent. |
| Generator.TwimlCodeGenerator.JoinLoop | twiml_generator/twiml_code_generator.py:320-334 | One turn per child, as `Joined` describes. |
| Generator.TwimlCodeGenerator.JoinTurn | twiml_generator/twiml_code_generator.py:321-334 | One child's piece, and its tail text when shown. |
| Generator.TwimlCodeGenerator.OutputNewVariable | twiml_generator/twiml_code_generator.py:146-166 | The `new_block` or `new_variable` line from the verb's name, parent, class, attributes, text, appends and indent; the verb ends named. |
| Generator.TwimlCodeGenerator.VariableContent | twiml_generator/twiml_code_generator.py:146-166 | Attributes, then text, then appends, and what each leaves. |
| Generator.TwimlCodeGenerator.ChainChildren | twiml_generator/twiml_code_generator.py:317-335 | `join_appends` leaves the verb's and its parent's names alone. |
| Generator.TwimlCodeGenerator.EmitEnd | twiml_generator/twiml_code_generator.py:91-94 | At most one `append` line, filled with the verb's name, its parent's name, class and indent. It is kept (`now`) exactly for a non-root verb not detached whose `append` text is not empty (`EndRule`); that verb and its parent are then named. |
| Generator.TwimlCodeGenerator.EmitStart | twiml_generator/twiml_code_generator.py:146-166 | The `new_block` line when the verb has an undetached parent and the spec has `new_block`, else `new_variable`. It is filled with the verb's final name, its parent's name, its class, joined attributes, quoted original text and indent; the verb ends named and no other verb's text changes. |
| Generator.TwimlCodeGenerator.EmitLeaf | twiml_generator/twiml_code_generator.py:168-178 | The `new_leaf` line filled with the parent's name, `method_for_verb`, the quoted original text, the joined attributes, the class, the verb's final name and indent; the verb ends named. |
| Generator.TwimlCodeGenerator.EmitText | twiml_generator/twiml_code_generator.py:180-186 | A `new_text` line exactly when the tail is shown, filled with the right-stripped tail, the parent's name and indent. |
| Generator.TwimlCodeGenerator.EmitMain | twiml_generator/twiml_code_generator.py:87-94 | The line of the event's kind: `new_variable`/`new_block` for `start`, `new_leaf` for `leaf`, the `append` line for `end`, as `MainLines` says, each made as `LinesMade` says. The `append` line is kept exactly as `EndRule` says, and only a `start` may detach verbs, only among the verb's children. |
| Generator.TwimlCodeGenerator.EmitEvent | twiml_generator/twiml_code_generator.py:87-98 | The event's line, then a `new_text` line when the tail is shown (`MainLines` then `TailLines`), each its template filled with `ArgsFor` arguments. The `append` line of an `end` is kept exactly as `EndRule` says, on the names after the event. Only a `start` or `leaf` event writes its verb's text back. |
| Generator.TwimlCodeGenerator.EmitStep | twiml_generator/twiml_code_generator.py:86-100 | The lines grow by the event's lines, its `append` line kept exactly as `EndRule` says; under `optional_parentheses` the last line then loses its `()` and its drop count goes up by one. |
| Generator.TwimlCodeGenerator.EmitTurn | twiml_generator/twiml_code_generator.py:86-100 | One event keeps `TurnInv`: the kinds grow as `LinesSoFar` says, the lines stay made, only verbs already created may have lost their original text, and `Progress` holds. |
| Generator.TwimlCodeGenerator.EmitOne | twiml_generator/twiml_code_generator.py:106-109 | `new_leaf` for a verb without children, else `new_variable`/`new_block`, filled with `ArgsFor` arguments; the verb ends named. |
| Generator.TwimlCodeGenerator.ReverseTurn | twiml_generator/twiml_code_generator.py:105-109 | One verb of the order keeps `ReverseSoFar`: it is named, its line follows the earlier ones as `ReverseLines` says, and the lines stay made. |
| Generator.TwimlCodeGenerator.LinesGrow | twiml_generator/twiml_code_generator.py:86-98 | Made lines stay made when more made lines follow, more verbs get names and more verbs are detached. |
| Generator.TwimlCodeGenerator.LinesDrop | twiml_generator/twiml_code_generator.py:99-100 | Dropping the `()` of the last line keeps the lines made, with one more drop counted for that line. |
| Generator.TwimlCodeGenerator.KlassOfVerbs | twiml_generator/twiml_code_generator.py:244-259 | Over the IR's verbs: the root `Response` gets its kind's response class; every other verb whose tag does not pascalize to `Response` gets its pascal-style name, wrapped by `new_klass` when present. |
| Generator.TwimlCodeGenerator.NameVariable | twiml_generator/twiml_code_generator.py:148-151 | The verb's name first, then, for `new_block`, its parent's; both non-empty and stored, nothing else renamed. |
| Generator.TwimlCodeGenerator.AppendChild | twiml_generator/twiml_code_generator.py:321-332 | One child's chained piece from its method, its new name, its tail and indent; only the child gets a name; in Java a child with a shown tail is detached. |
| Generator.TwimlCodeGenerator.JoinChildren | twiml_generator/twiml_code_generator.py:320-333 | The concatenated pieces of the children, in order (`Chain`), with the children named and detached as `Renamed` says. |
| Generator.TwimlCodeGenerator.Repr | twiml_generator/twiml_code_generator.py:80-110 | With `reverse_build`, `kinds` is `ReverseLines` over an order that holds every verb once, children first, and no line loses a `()`; otherwise `kinds` is `ForwardLines` over the traversal. Line by line, `lines` are the templates of `kinds`, filled with arguments that hold what `ArgsFor` says of the verb in the document as it was before the build (`LinesMade`); every verb ends named. In the forward build a verb is appended exactly when it is a non-root verb with children, not detached, whose `append` text is not empty, and no kept `append` line is empty. |
| Generator.TwimlCodeGenerator.ForwardRepr | twiml_generator/twiml_code_generator.py:85-101 | `kinds` is `ForwardLines` of the traversal; line `i` is the template of `kinds[i]` filled with `ArgsFor` arguments, its `()` dropped `drops[i]` times, never without `optional_parentheses`. A verb is appended exactly when it is a non-root verb with children, not detached at the end, whose `append` text from the final names is not empty; no kept `append` line is empty. Every verb ends named. |
| Generator.TwimlCodeGenerator.AppendLineText | twiml_generator/twiml_code_generator.py:188-195 | A made `append` line is exactly the verb's `append` text. |
| Generator.TwimlCodeGenerator.AppendLinesShown | twiml_generator/twiml_code_generator.py:91-94 | When every appended verb's `append` text is not empty, no `append` line of the forward build is empty. |
| Generator.TwimlCodeGenerator.ChildrenOf | twiml_generator/twimlir.py:80-94 | The IR's children lists name children of their verb in the document. |
| Generator.TwimlCodeGenerator.EmitEvents | twiml_generator/twiml_code_generator.py:86-100 | After the loop over all events, `kinds` is `LinesSoFar` of the events and the lines are made as `LinesMade` says. `Progress` holds: a verb is recorded as appended exactly when its `end` came, it is not the root, not detached, and its `append` text from the final names is not empty. |
| Generator.TwimlCodeGenerator.ReverseRepr | twiml_generator/twiml_code_generator.py:103-110 | `kinds` is `ReverseLines` over an order that holds each verb once, children before their parent; line by line, `lines` are the templates of `kinds`, filled with arguments that hold what `ArgsFor` says of the verb in the document as it was before the build (`LinesMade`), with no `()` dropped. Every verb ends named. |
| Generator.TwimlCodeGenerator.EmitReverse | twiml_generator/twiml_code_generator.py:104-109 | `kinds` is `ReverseLines` of the order and the lines are made as `LinesMade` says; every verb of the order ends named. |
| Emission.EventLineOnce | twiml_generator/twiml_code_generator.py:85-100 | An event emits its kind's line and the text line for a shown tail. |
| Emission.ForwardLinesCount | twiml_generator/twiml_code_generator.py:85-100 | The lines hold each line as often as the events emit it. |
| Emission.FwdOnce | twiml_generator/twimlir.py:128-143 | `start`/`end` of root and verbs with children, `leaf` of others, each once. |
| Emission.CreatedOnce | twiml_generator/twiml_code_generator.py:87-90 | Each verb is created by exactly one line. |
| Emission.FwdCreatesOnce | twiml_generator/twimlir.py:128-143 | The traversal never holds two `start`/`leaf` events of one verb. |
| Emission.TextLinesCount | twiml_generator/twiml_code_generator.py:95-98 | Tail lines per verb: none if not shown; else two for root and verbs with children, one otherwise or with `tailOnce`. |
| Emission.AppendLinesCount | twiml_generator/twiml_code_generator.py:91-94 | At most one append line per verb, on its `end`, when recorded. |
| Emission.TailTextTwice | twiml_generator/twiml_code_generator.py:95-98 | As written, a shown tail of a verb with children is emitted twice. |
| Emission.TailTextOnce | twiml_generator/twiml_code_generator.py:95-98 | Without the text line after `start`, every shown tail is emitted once. |
| Emission.FwdAppended | twiml_generator/twiml_code_generator.py:91-94 | When exactly the `end` events of non-root verbs, not detached and in the set `shown`, are recorded, the appended verbs are exactly the non-root verbs with children, not detached, in `shown`. |
| Emission.ChildEndAfterParentStart | twiml_generator/twimlir.py:128-143 | In the traversal the `end` of a child comes after the `start` of its parent. |
| Emission.FwdChildEndsLate | twiml_generator/twimlir.py:128-143 | No `start` in the traversal comes after the `end` of one of its verb's children. |
| Emission.ReverseLines | twiml_generator/twiml_code_generator.py:103-110 | One line per verb of the order. |
| Emission.ReverseCreatedOnce | twiml_generator/twiml_code_generator.py:103-110 | Each verb is created by exactly one line, leaf or variable by its children. |
| Emission.ReverseChildrenBefore | twiml_generator/twiml_code_generator.py:103-110 | A verb's children's lines come before its own. |
| Emission.ReverseLinesOnce | twiml_generator/twiml_code_generator.py:103-110 | A verb has as many lines as it occurs in the order. |
| Elements.ElementEqReflexive | twiml_generator/twiml_code_generator.py:582-590 | Every tree equals itself. |
| Elements.ElementEqSymmetric | twiml_generator/twiml_code_generator.py:582-590 | The comparison is symmetric. |
| Elements.ElementEqTransitive | twiml_generator/twiml_code_generator.py:582-590 | The comparison is transitive. |
| Elements.CleanedTextEq | twiml_generator/twiml_code_generator.py:586-587 | Cleaning a non-blank root text keeps the tree equal. |

## Left out

- File and JSON I/O are not modelled, because they touch the file system and the shell, outside the in-memory core:
  - `load_language_spec`, `get_code_filepath`, `write_code` and `format_code`;
  - the `verify*` methods, which run compilers and interpreters; only their comparison, `etree_element_eq`, is modelled.
  - The language spec is a given record.
- `output_wrapper`, `output_imports` and `output_print` are not modelled. They format the spec's `code_wrapper` and import templates around the lines, and the order of `specific_imports` there is Python's set order.
- The lxml parser and the XSD loading in `TwimlAttributesTypes` are not modelled: the event stream and the attribute-type map are inputs.
- `inflection`: `camelize`, `pascalize` and `underscore` are simplified ASCII versions, not the library.
- `str.format` templates are opaque functions of their arguments.
- Python's set iteration order is not modelled: `siblings` in `reverse_iter` is pushed in an arbitrary order, and only order-independent facts are proved.
- `TwimlIRVerb.add_child` is not modelled: it leaves out two required constructor arguments, so it always raises.
- `TwimlIRVerb.__repr__` is not modelled; it is debugging output.
- The base `Language.clean`, which raises NotImplementedError, is not modelled: every language here overrides it.
- The concurrency-free single run of the program is assumed; logging is left out.
- TwimlIr.TwimlIR.ParseXml: a second `Response` start, or an end event with no verb open, is an `Err` in the model. Python would re-root the IR or crash on `None.parent`.
- Strings.ParseInt: accepts only ASCII digits; `int()` also accepts `_` between digits and non-ASCII Unicode digits.
- Strings.Upper, Strings.Lower: ASCII letters only, without Python's Unicode case mapping.
- Emitter.AttributeValue: `repr` of a `str` value is written as the value between single quotes, without Python's escaping.
- CSharpHandlers.Process: a raw `bytes` text in `Play` is formatted as `b'...'` with the characters as they are, without Python's escaping of quotes and non-ASCII bytes.
- JavaHandlers.VerbProcessing, CSharpHandlers.VerbProcessing: `eval(verb.name)` is modelled only as a SyntaxError on a statement keyword. Any other name is looked up in the handler list; a name that would raise NameError, or evaluate to some other object, is not modelled.
- Passes.ApplyPass: the handlers are computed on a value copy of the verb (`VerbRec`) and written back with `Passes.SetVerb`. Aliasing between the handler and other references to the verb object is not modelled.
- Generator.TwimlCodeGenerator.JoinAppends: the Java `v.parent = ''` is modelled as adding the child to a `detached` set of the generator. The verb's `parent` field is left intact, and `ParentOf` reads the set.
- Generator.TwimlCodeGenerator.Repr, Generator.TwimlCodeGenerator.ForwardRepr, Generator.TwimlCodeGenerator.ReverseRepr, Generator.TwimlCodeGenerator.EmitStart, Generator.TwimlCodeGenerator.EmitOne: `LinesMade` leaves the `appends` argument of a `new_variable`/`new_block` line free. `OutputNewVariable` states it, as the `Chain` of the verb's children at the time of the call.
- Generator.TwimlCodeGenerator.Repr, Generator.TwimlCodeGenerator.ForwardRepr: the parent-name argument of a line for a verb that Java's `join_appends` detached is not stated.

## Findings

| source | as written | input that shows it | evidently intended | confidence | as-written member | corrected member |
|---|---|---|---|---|---|---|
| twiml_generator/specificity/python.py:13-15 | the `ssml_` prefix is added on every traversal event, so twice for an SSML verb with children | `<Say><prosody><emphasis>x</emphasis></prosody></Say>`: `prosody` becomes `ssml_ssml_prosody` | one prefix per SSML verb | not executed | PythonLanguage.CleanSsmlName | PythonLanguage.CleanOnceSsmlName |
| twiml_generator/specificity/node.py:10-13 | the SSML rename runs at `start` and again at `end` | the same document: `prosody` becomes `ssmlSsmlProsody` | `ssmlProsody` | not executed | NodeLanguage.ProsodyRenamedTwice | NodeLanguage.ProsodyRenamedOnce |
| twiml_generator/twiml_code_generator.py:345-347 | the `Enqueue` branch runs at `start` and `end`, and the second run overwrites `queueName` with the `None` text | `<Enqueue workflowSid="W">support<Task>{}</Task></Enqueue>`: `queueName` ends `None` | `queueName` holds `support` | not executed | InlinePasses.JavaCleanEnqueue | InlinePasses.JavaCleanOnceEnqueue |
| twiml_generator/twiml_code_generator.py:340-344 | the Java SSML rename runs twice on an SSML verb with children | `<Say><prosody><emphasis>x</emphasis></prosody></Say>`: class `SsmlSsmlProsody` | `SsmlProsody` | not executed | InlinePasses.JavaCleanSsmlName | InlinePasses.JavaCleanOnceSsmlName |
| twiml_generator/twiml_code_generator.py:95-98 | the tail text line is added after every event, so after both `start` and `end` of a verb with children | `<Say><p>a<s>b</s></p>tail</Say>`: `tail` is added twice | once, after the verb is closed | not executed | Emission.TailTextTwice | Emission.TailTextOnce |
| twiml_generator/twiml_code_generator.py:341 | the Java pass presets `camelize('ssml_'+name)` as the variable name, and `variable_for_verb` (lines 216-218) keeps a preset name without checking the generated names | `<Say><break/>a<break/></Say>`: both breaks are `ssmlBreak` | distinct variable names | not executed | Generator.TwimlCodeGenerator.PresetNamesClash | Generator.TwimlCodeGenerator.DistinctNames |
