/**
 * The pure half of the code generator: the language specification it reads (one
 * JSON file per target language, taken here as a given record whose templates are
 * functions), and the pieces of text it builds from that record and a verb's
 * fields: method and variable base names, class names, quoted text, the list of
 * formatted attributes, indentation and the padded code block.
 */
module Emitter {
  import opened Wrappers
  import opened Strings
  import opened Attributes
  import opened Inflection

  /** `variable_name_style` / `method_name_style`: `camelize`, `pascalize`, or anything else (`lower()`). */
  datatype NameStyle = CamelStyle | PascalStyle | LowerStyle

  /** `attribute_name_style`: `underscore`, `camelize` (of the underscored name), or anything else (kept). */
  datatype AttrNameStyle = UnderscoreNames | CamelNames | KeepNames

  /**
   * The keyword arguments a line template is formatted with (`str.format` ignores the
   * ones a template does not use; a line method that does not pass one leaves it "").
   */
  datatype Args = Args(variable: string, parent: string, klass: string, attributes: string, text: string,
                       appends: string, indent: string, methodName: string)

  /**
   * A language specification. Optional keys that the generator reads with a default
   * hold that default here; keys it tests for truthiness are `Option`s or flags.
   */
  datatype LanguageSpec = LanguageSpec(
    /** `language`. */
    language: string,
    variableNameStyle: NameStyle,
    methodNameStyle: NameStyle,
    attributeNameStyle: AttrNameStyle,
    /** `string_quote`, `None` when the key is absent. */
    stringQuote: Option<char>,
    /** `text_format.format(text=...)`. */
    textFormat: string -> string,
    /** `attribute_format.format(name=..., value=...)`. */
    attributeFormat: (string, string) -> string,
    /** `attribute_join` (default `', '`). */
    attributeJoin: string,
    /** `attributes_wrapper_format.format(attributes=...)` (default: the attributes as they are). */
    attributesWrapperFormat: string -> string,
    /** `attributes_map`: attribute name, then attribute value, to the code to emit; `_import` names an import. */
    attributesMap: map<string, map<string, string>>,
    useBoolean: bool,
    voiceClass: string,
    messagingClass: string,
    /** `new_klass.format(klass=...)`, when the key is present. */
    newKlass: Option<string -> string>,
    /** `depth_padding` (default 0). */
    depthPadding: int,
    codeWrapperPadding: int,
    newBlock: Option<Args -> string>,
    newVariable: Args -> string,
    newLeaf: Args -> string,
    newText: Args -> string,
    append: Args -> string,
    chainedAppend: Option<Args -> string>,
    optionalParentheses: bool,
    reverseBuild: bool)

  // ----- names -----

  /**
   * `method_for_verb`, and the base of `variable_for_verb`: the name camelized,
   * pascalized or lower-cased. Camel and Pascal forms differ only in the case of the
   * first letter. Verb names are XML tags, never empty.
   */
  function Styled(style: NameStyle, name: string): (r: string)
    requires name != []
    ensures r != [] && |r| <= |name|
    ensures r[0] == if style == PascalStyle then UpperChar(name[0]) else LowerChar(name[0])
    ensures style != LowerStyle ==> r[1..] == Pascalize(name)[1..]
    ensures style == LowerStyle ==> |r| == |name| && forall i :: 0 < i < |r| ==> r[i] == LowerChar(name[i])
  {
    match style
    case CamelStyle => Camelize(name)
    case PascalStyle => Pascalize(name)
    case LowerStyle => Lower(name)
  }

  /**
   * `class_for_verb_name`: the pascalized name, except that `Response` becomes the
   * voice or messaging response class, and that `new_klass` wraps every other name.
   */
  function ClassForVerbName(spec: LanguageSpec, name: string, isVoiceResponse: bool): (r: string)
    ensures Pascalize(name) == "Response" ==> r == if isVoiceResponse then spec.voiceClass else spec.messagingClass
    ensures Pascalize(name) != "Response" && spec.newKlass.None? ==> r == Pascalize(name)
    ensures Pascalize(name) != "Response" && spec.newKlass.Some? ==> r == spec.newKlass.value(Pascalize(name))
  {
    var klass := Pascalize(name);
    if klass == "Response" then
      if isVoiceResponse then spec.voiceClass else spec.messagingClass
    else if spec.newKlass.Some? then spec.newKlass.value(klass)
    else klass
  }

  /** The root verb `response` gets the response class of its kind, and only it depends on the kind. */
  lemma ResponseClass(spec: LanguageSpec, name: string)
    ensures ClassForVerbName(spec, "response", true) == spec.voiceClass
    ensures ClassForVerbName(spec, "response", false) == spec.messagingClass
    ensures Pascalize(name) != "Response" ==> ClassForVerbName(spec, name, true) == ClassForVerbName(spec, name, false)
  {
    PascalizeResponse();
  }

  /** The tag `response` pascalizes to `Response`. */
  lemma PascalizeResponse()
    ensures Pascalize("response") == "Response"
  {
    assert '_' !in "response" && UpperChar('r') == 'R';
    assert [UpperChar("response"[0])] + "response"[1..] == "Response";
  }

  /**
   * The classes of a document's verbs, root first: the root `Response` gets the
   * response class of the document's kind; every other verb whose tag does not
   * pascalize to `Response` gets the name `method_for_verb` makes in the `pascalize`
   * style, wrapped by `new_klass` when the spec has one, whatever the kind.
   */
  lemma ClassesOfVerbs(spec: LanguageSpec, names: seq<string>, isVoiceResponse: bool)
    requires names != [] && names[0] == "Response"
    requires forall i :: 0 < i < |names| ==> names[i] != []
    ensures ClassForVerbName(spec, names[0], isVoiceResponse) ==
            if isVoiceResponse then spec.voiceClass else spec.messagingClass
    ensures forall i :: 0 < i < |names| && Pascalize(names[i]) != "Response" ==>
              ClassForVerbName(spec, names[i], isVoiceResponse) ==
              if spec.newKlass.Some? then spec.newKlass.value(Styled(PascalStyle, names[i]))
              else Styled(PascalStyle, names[i])
  {
    assert '_' !in "Response" && UpperChar('R') == 'R';
    assert [UpperChar("Response"[0])] + "Response"[1..] == "Response";
  }

  // ----- padding -----

  /** Python's `' ' * n`: no characters for `n <= 0`. */
  function Spaces(n: int): (r: string)
    ensures |r| == if n > 0 then n else 0
    ensures forall i :: 0 <= i < |r| ==> r[i] == ' '
    decreases n
  {
    if n <= 0 then "" else Spaces(n - 1) + " "
  }

  /** `indent_for_verb`: four spaces per level of `depth + depth_padding` (none when that is not positive). */
  function IndentForVerb(spec: LanguageSpec, depth: nat): (r: string)
    ensures |r| == if depth + spec.depthPadding > 0 then 4 * (depth + spec.depthPadding) else 0
    ensures forall i :: 0 <= i < |r| ==> r[i] == ' '
  {
    Spaces(4 * (depth + spec.depthPadding))
  }

  /** Each code line behind `code_wrapper_padding` spaces. */
  function Padded(spec: LanguageSpec, lines: seq<string>): (r: seq<string>)
    ensures |r| == |lines|
    ensures forall i :: 0 <= i < |lines| ==> r[i] == Spaces(spec.codeWrapperPadding) + lines[i]
  {
    seq(|lines|, i requires 0 <= i < |lines| => Spaces(spec.codeWrapperPadding) + lines[i])
  }

  /** `output_padded_code`: the padded lines joined with newlines, plus a final newline. */
  function OutputPaddedCode(spec: LanguageSpec, lines: seq<string>): (r: string)
    ensures r != [] && r[|r| - 1] == '\n'
  {
    Join("\n", Padded(spec, lines)) + "\n"
  }

  /** Splitting the padded block (final newline dropped) at its newlines gives back each padded line. */
  lemma PaddedCodeLines(spec: LanguageSpec, lines: seq<string>)
    requires lines != [] && forall i :: 0 <= i < |lines| ==> '\n' !in lines[i]
    ensures Split(OutputPaddedCode(spec, lines)[..|OutputPaddedCode(spec, lines)| - 1], '\n') == Padded(spec, lines)
  {
    var p := Padded(spec, lines);
    forall k | 0 <= k < |p|
      ensures '\n' !in p[k]
    {
      assert p[k] == Spaces(spec.codeWrapperPadding) + lines[k];
    }
    SplitJoin(p, '\n');
    var r := OutputPaddedCode(spec, lines);
    assert r[..|r| - 1] == Join("\n", p);
  }

  // ----- text -----

  /** `text.replace(q, '\\' + q)` for a one-character quote. */
  function Escape(s: string, q: char): (r: string)
    ensures |r| >= |s|
    ensures q !in s ==> r == s
  {
    if s == [] then [] else (if s[0] == q then ['\\', q] else [s[0]]) + Escape(s[1..], q)
  }

  /** Reading a quoted literal's body back: a backslash before the quote character stands for the quote. */
  function Unescape(s: string, q: char): string
  {
    if s == [] then []
    else if |s| >= 2 && s[0] == '\\' && s[1] == q then [q] + Unescape(s[2..], q)
    else [s[0]] + Unescape(s[1..], q)
  }

  /** Escaped text never starts with a bare quote character: a quote comes out behind its backslash. */
  lemma EscapeStart(s: string, q: char)
    requires q != '\\'
    ensures Escape(s, q) == [] || Escape(s, q)[0] != q
  {
  }

  /**
   * Escaping is undone by reading the literal back, as long as the quote is not the
   * backslash itself (the generator does not escape backslashes).
   */
  lemma {:induction false} UnescapeEscape(s: string, q: char)
    requires q != '\\'
    ensures Unescape(Escape(s, q), q) == s
  {
    if s != [] {
      var rest := Escape(s[1..], q);
      UnescapeEscape(s[1..], q);
      if s[0] == q {
        assert Escape(s, q) == ['\\', q] + rest;
        assert Escape(s, q)[2..] == rest;
      } else {
        EscapeStart(s[1..], q);
        assert Escape(s, q) == [s[0]] + rest;
        assert Escape(s, q)[1..] == rest;
      }
    }
  }

  /** `string_quote`, `'` when the key is absent. */
  function QuoteChar(spec: LanguageSpec): char
  {
    if spec.stringQuote.Some? then spec.stringQuote.value else '\''
  }

  /** The text as a string literal: between two quote characters, each quote inside escaped. */
  function TextLiteral(spec: LanguageSpec, s: string): (r: string)
    ensures |r| >= 2 && r[0] == QuoteChar(spec) && r[|r| - 1] == QuoteChar(spec)
  {
    [QuoteChar(spec)] + Escape(s, QuoteChar(spec)) + [QuoteChar(spec)]
  }

  /** The literal's body reads back as the text. */
  lemma TextLiteralRoundTrip(spec: LanguageSpec, s: string)
    requires QuoteChar(spec) != '\\'
    ensures Unescape(TextLiteral(spec, s)[1..|TextLiteral(spec, s)| - 1], QuoteChar(spec)) == s
  {
    var q := QuoteChar(spec);
    assert TextLiteral(spec, s)[1..|TextLiteral(spec, s)| - 1] == Escape(s, q);
    UnescapeEscape(s, q);
  }

  /** One leading `', '` dropped, or else one trailing `', '`. */
  function DropSeparator(t: string): (r: string)
    ensures StartsWith(t, ", ") ==> ", " + r == t
    ensures !StartsWith(t, ", ") && EndsWith(t, ", ") ==> r + ", " == t
    ensures !StartsWith(t, ", ") && !EndsWith(t, ", ") ==> r == t
  {
    if StartsWith(t, ", ") then t[2..]
    else if EndsWith(t, ", ") then t[..|t| - 2]
    else t
  }

  /**
   * `quote_text_for_verb` for a verb whose text is the non-empty string `s` (after
   * `' '` has become `''`): the literal through `text_format`, and without
   * attributes the separator the template puts before or after the text dropped.
   */
  function QuoteText(spec: LanguageSpec, s: string, hasAttributes: bool): (r: string)
    ensures hasAttributes ==> r == spec.textFormat(TextLiteral(spec, s))
    ensures !hasAttributes ==> r == DropSeparator(spec.textFormat(TextLiteral(spec, s)))
  {
    var text := spec.textFormat(TextLiteral(spec, s));
    if hasAttributes then text else DropSeparator(text)
  }

  // ----- attributes -----

  /** The attribute name as the target language spells it. */
  function AttrName(style: AttrNameStyle, name: string): (r: string)
    requires name != []
    ensures r != []
  {
    match style
    case UnderscoreNames => Underscore(name)
    case CamelNames => Camelize(Underscore(name))
    case KeepNames => name
  }

  /**
   * The `attributes_map` entry for the (styled) attribute name and value, when the
   * map has a non-empty one; only a `str` value can be a key of it.
   */
  function MapHit(spec: LanguageSpec, name: string, value: Value): (r: Option<string>)
    ensures r.Some? ==> value.Str? && name in spec.attributesMap && value.s in spec.attributesMap[name]
    ensures r.Some? ==> r.value != "" && r.value == spec.attributesMap[name][value.s]
  {
    if value.Str? && name in spec.attributesMap && value.s in spec.attributesMap[name]
       && spec.attributesMap[name][value.s] != ""
    then Some(spec.attributesMap[name][value.s])
    else None
  }

  /** The import an `attributes_map` hit adds: its `_import` entry, when non-empty. */
  function MapImport(spec: LanguageSpec, name: string, value: Value): (r: set<string>)
    ensures r != {} ==> MapHit(spec, name, value).Some?
  {
    if MapHit(spec, name, value).Some? && "_import" in spec.attributesMap[name]
       && spec.attributesMap[name]["_import"] != ""
    then {spec.attributesMap[name]["_import"]}
    else {}
  }

  /** Python's `repr` of a value that is neither mapped, boolean, quoted nor raw. */
  function Repr(value: Value): string
  {
    match value
    case Null => "None"
    case Str(s) => "'" + s + "'"
    case Raw(s) => "b'" + s + "'"
    case Int(i) => IntToString(i)
  }

  /**
   * The value text of one attribute: its `attributes_map` replacement, a bare
   * `true`/`false` under `use_boolean`, a string between `string_quote`s (not
   * escaped), raw code as it is, or else `repr`.
   */
  function AttributeValue(spec: LanguageSpec, name: string, value: Value): (r: string)
    ensures MapHit(spec, name, value).Some? ==> r == MapHit(spec, name, value).value
    ensures value.Raw? ==> r == value.s
    ensures MapHit(spec, name, value).None? && spec.useBoolean && value in {Str("true"), Str("false")} ==> r == value.s
    ensures (MapHit(spec, name, value).None? && value.Str? && !(spec.useBoolean && value.s in {"true", "false"})
             && spec.stringQuote.Some?) ==> r == [spec.stringQuote.value] + value.s + [spec.stringQuote.value]
    ensures value.Int? ==> r == IntToString(value.i)
  {
    if MapHit(spec, name, value).Some? then MapHit(spec, name, value).value
    else if spec.useBoolean && value in {Str("true"), Str("false")} then value.s
    else if value.Str? && spec.stringQuote.Some? then [spec.stringQuote.value] + value.s + [spec.stringQuote.value]
    else if value.Raw? then value.s
    else Repr(value)
  }

  /** One entry of `build_attributes_for_verb`: `attribute_format` of the styled name and the value text. */
  function AttributeEntry(spec: LanguageSpec, name: string, value: Value): string
    requires name != []
  {
    var styled := AttrName(spec.attributeNameStyle, name);
    spec.attributeFormat(styled, AttributeValue(spec, styled, value))
  }

  /** Raw code (Python `bytes`) is emitted exactly as it is, and adds no import. */
  lemma RawVerbatim(spec: LanguageSpec, name: string, code: string)
    requires name != []
    ensures AttributeEntry(spec, name, Raw(code)) == spec.attributeFormat(AttrName(spec.attributeNameStyle, name), code)
    ensures MapImport(spec, AttrName(spec.attributeNameStyle, name), Raw(code)) == {}
  {
  }

  /** Every attribute name of the dict is a non-empty XML attribute name. */
  predicate NamedAttrs(d: Attrs)
  {
    forall i :: 0 <= i < |d| ==> d[i].0 != []
  }

  /** The built attributes: one entry per attribute, in the dict's order. */
  function Entries(spec: LanguageSpec, d: Attrs): (r: seq<string>)
    requires NamedAttrs(d)
    ensures |r| == |d| && forall i :: 0 <= i < |d| ==> r[i] == AttributeEntry(spec, d[i].0, d[i].1)
  {
    seq(|d|, i requires 0 <= i < |d| && NamedAttrs(d) => AttributeEntry(spec, d[i].0, d[i].1))
  }

  /** The import the `attributes_map` hit for one attribute adds. */
  function AttrImport(spec: LanguageSpec, a: (string, Value)): set<string>
    requires a.0 != []
  {
    MapImport(spec, AttrName(spec.attributeNameStyle, a.0), a.1)
  }

  /** The imports the `attributes_map` hits among the attributes add. */
  function EntryImports(spec: LanguageSpec, d: Attrs): set<string>
    requires NamedAttrs(d)
  {
    if d == [] then {}
    else EntryImports(spec, d[..|d| - 1]) + AttrImport(spec, Last(d))
  }

  /** An import is added exactly when some attribute's `attributes_map` hit names it. */
  lemma {:induction false} EntryImportsMembers(spec: LanguageSpec, d: Attrs, imp: string)
    requires NamedAttrs(d)
    ensures imp in EntryImports(spec, d) <==> exists i :: 0 <= i < |d| && imp in AttrImport(spec, d[i])
  {
    if d != [] {
      var pre := d[..|d| - 1];
      EntryImportsMembers(spec, pre, imp);
      if imp in EntryImports(spec, d) && imp !in AttrImport(spec, Last(d)) {
        var i :| 0 <= i < |pre| && imp in AttrImport(spec, pre[i]);
        TakeAt(d, |d| - 1, i);
      }
      if exists i :: 0 <= i < |d| - 1 && imp in AttrImport(spec, d[i]) {
        var i :| 0 <= i < |d| - 1 && imp in AttrImport(spec, d[i]);
        TakeAt(d, |d| - 1, i);
      }
    }
  }

  /**
   * `join_attributes_for_verb`: no attributes give the empty string; otherwise the
   * entries joined with `attribute_join` and put into `attributes_wrapper_format`.
   */
  function JoinAttributes(spec: LanguageSpec, d: Attrs): (r: string)
    requires NamedAttrs(d)
    ensures d == [] ==> r == ""
    ensures d != [] ==> r == spec.attributesWrapperFormat(Join(spec.attributeJoin, Entries(spec, d)))
  {
    if |d| > 0 then spec.attributesWrapperFormat(Join(spec.attributeJoin, Entries(spec, d))) else ""
  }
}
