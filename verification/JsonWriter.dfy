/** The two printers. */
module JsonWriter {
  import opened JsonText
  import opened JsonReal
  import opened JsonValue

  // The compact form.

  function FastText(v: Value, yaml: bool): string
    requires Writable(v)
    decreases v, 1, 0
  {
    match v
    case Null => "null"
    case Bool(b) => if b then "true" else "false"
    case Int(i) => IntText(i)
    case UInt(n) => IntText(n)
    case Real(d) => Shortened(d)
    case Str(s) => Quoted(s)
    case Array(xs) => "[" + FastItems(v, |xs|, yaml) + "]"
    case Object(ms) => "{" + FastMembers(v, |ms|, yaml) + "}"
  }

  /** The first `n` elements. */
  function FastItems(v: Value, n: nat, yaml: bool): string
    requires v.Array? && Writable(v) && n <= |v.items|
    decreases v, 0, n
  {
    if n == 0 then ""
    else FastItems(v, n - 1, yaml) + (if n > 1 then "," else "") + FastText(v.items[n - 1], yaml)
  }

  function FastMembers(v: Value, n: nat, yaml: bool): string
    requires v.Object? && Writable(v) && n <= |v.members|
    decreases v, 0, n
  {
    if n == 0 then ""
    else FastMembers(v, n - 1, yaml) + (if n > 1 then "," else "") + Quoted(v.members[n - 1].name)
         + (if yaml then ": " else ":") + FastText(v.members[n - 1].value, yaml)
  }

  class FastWriter {
    var document: string
    var yamlCompatibilityEnabled: bool

    constructor ()
      ensures !yamlCompatibilityEnabled
    {
      document, yamlCompatibilityEnabled := "", false;
    }

    method EnableYamlCompatibility()
      modifies `yamlCompatibilityEnabled
      ensures yamlCompatibilityEnabled
    {
      yamlCompatibilityEnabled := true;
    }

    method Write(root: Value) returns (text: string)
      requires Writable(root)
      modifies `document
      ensures text == FastText(root, yamlCompatibilityEnabled) + "\n"
    {
      document := "";
      WriteValue(root);
      document := document + "\n";
      return document;
    }

    method WriteValue(value: Value)
      requires Writable(value)
      modifies `document
      ensures document == old(document) + FastText(value, yamlCompatibilityEnabled)
      decreases value, 1
    {
      hide Decimal, Quoted, FastItems, FastMembers, Shortened;
      match value {
        case Null =>
          document := document + "null";
        case Int(i) =>
          var t := IntToString(i);
          document := document + t;
        case UInt(n) =>
          var t := UintToString(n);
          document := document + t;
        case Real(d) =>
          var t := RealToString(d);
          document := document + t;
        case Str(s) =>
          var t := ValueToQuotedString(s);
          document := document + t;
        case Bool(b) =>
          document := document + (if b then "true" else "false");
        case Array(_) =>
          WriteItems(value);
        case Object(_) =>
          WriteMembers(value);
      }
    }

    method WriteItems(value: Value)
      requires value.Array? && Writable(value)
      modifies `document
      ensures document == old(document) + FastText(value, yamlCompatibilityEnabled)
      decreases value, 0
    {
      hide Writable, IsCString, FastText, FastItems;
      document := document + "[";
      ghost var start := document;
      ArrayText(value, yamlCompatibilityEnabled);
      var size := |value.items|;
      for index := 0 to size
        invariant document == start + FastItems(value, index, yamlCompatibilityEnabled)
      {
        NextItem(start, value, index, yamlCompatibilityEnabled);
        if index > 0 {
          document := document + ",";
        }
        WriteValue(value.items[index]);
      }
      document := document + "]";
      Bracketed(old(document), "[", FastItems(value, size, yamlCompatibilityEnabled), "]");
    }

    method WriteMembers(value: Value)
      requires value.Object? && Writable(value)
      modifies `document
      ensures document == old(document) + FastText(value, yamlCompatibilityEnabled)
      decreases value, 0
    {
      hide Writable, IsCString, Quoted, FastText, FastMembers;
      document := document + "{";
      ghost var start := document;
      ObjectText(value, yamlCompatibilityEnabled);
      for index := 0 to |value.members|
        invariant document == start + FastMembers(value, index, yamlCompatibilityEnabled)
      {
        MemberWritable(value, index);
        FastMembersNext(start, value, index, yamlCompatibilityEnabled);
        if index != 0 {
          document := document + ",";
        }
        var name := ValueToQuotedString(value.members[index].name);
        document := document + name;
        document := document + (if yamlCompatibilityEnabled then ": " else ":");
        WriteValue(value.members[index].value);
      }
      document := document + "}";
      Bracketed(old(document), "{", FastMembers(value, |value.members|, yamlCompatibilityEnabled), "}");
    }
  }

  lemma Bracketed(a: string, b: string, c: string, d: string)
    ensures a + b + c + d == a + (b + c + d)
  {
  }

  lemma ArrayText(v: Value, yaml: bool)
    requires v.Array? && Writable(v)
    ensures FastText(v, yaml) == "[" + FastItems(v, |v.items|, yaml) + "]" && FastItems(v, 0, yaml) == ""
  {
  }

  lemma ObjectText(v: Value, yaml: bool)
    requires v.Object? && Writable(v)
    ensures FastText(v, yaml) == "{" + FastMembers(v, |v.members|, yaml) + "}" && FastMembers(v, 0, yaml) == ""
  {
  }

  lemma NextItem(a: string, v: Value, n: nat, yaml: bool)
    requires v.Array? && Writable(v) && n < |v.items|
    ensures Writable(v.items[n])
    ensures a + FastItems(v, n + 1, yaml)
         == a + FastItems(v, n, yaml) + (if n > 0 then "," else "") + FastText(v.items[n], yaml)
  {
    hide FastText, Writable;
    ItemWritable(v, n);
    Four(a, FastItems(v, n, yaml), if n > 0 then "," else "", FastText(v.items[n], yaml));
  }

  lemma Four(a: string, b: string, c: string, d: string)
    ensures a + (b + c + d) == a + b + c + d
  {
  }

  lemma FastMembersNext(a: string, v: Value, n: nat, yaml: bool)
    requires v.Object? && Writable(v) && n < |v.members|
    ensures Writable(v.members[n].value)
    ensures a + FastMembers(v, n + 1, yaml)
         == a + FastMembers(v, n, yaml) + (if n > 0 then "," else "") + Quoted(v.members[n].name)
            + (if yaml then ": " else ":") + FastText(v.members[n].value, yaml)
  {
    hide FastText, Writable, Quoted;
    MemberWritable(v, n);
    var name, colon, text := Quoted(v.members[n].name), if yaml then ": " else ":", FastText(v.members[n].value, yaml);
    var b, c := FastMembers(v, n, yaml), if n > 0 then "," else "";
    Six(a, b, c, name, colon, text);
  }

  lemma Six(a: string, b: string, c: string, d: string, e: string, f: string)
    ensures a + (b + c + d + e + f) == a + b + c + d + e + f
  {
  }

  // The styled form.

  const RIGHT_MARGIN: int := 74
  const INDENT: string := "   "

  /** Values that fit on one line: scalars and empty containers. */
  predicate IsSimple(v: Value) {
    !(v.Array? && v.items != []) && !(v.Object? && v.members != [])
  }

  function SimpleText(v: Value): string
    requires Writable(v) && IsSimple(v)
  {
    FastText(v, false)
  }

  /** The indentation of the next token, unless the document ends in a space already. */
  function Indented(doc: string, indent: string): string {
    if doc == [] then indent
    else if doc[|doc| - 1] == ' ' then doc
    else if doc[|doc| - 1] != '\n' then doc + "\n" + indent
    else doc + indent
  }

  /** The length of the first `n` elements, all of them simple. */
  function TextLength(v: Value, n: nat): nat
    requires v.Array? && Writable(v) && n <= |v.items| && forall i :: 0 <= i < n ==> IsSimple(v.items[i])
  {
    if n == 0 then 0 else TextLength(v, n - 1) + |SimpleText(v.items[n - 1])|
  }

  /** An array takes one line only if all its elements are simple and there is room for them. */
  predicate MultiLine(v: Value)
    requires v.Array? && Writable(v)
  {
    || |v.items| * 3 >= RIGHT_MARGIN
    || !(forall i :: 0 <= i < |v.items| ==> IsSimple(v.items[i]))
    || 4 + (|v.items| - 1) * 2 + TextLength(v, |v.items|) >= RIGHT_MARGIN
  }

  /** The document `doc` followed by `v`. */
  function Styled(doc: string, v: Value, indent: string): string
    requires Writable(v)
    decreases v, 1, 0
  {
    if IsSimple(v) then doc + SimpleText(v)
    else if v.Object? then
      Indented(StyledMembers(Indented(doc, indent) + "{", v, |v.members|, indent + INDENT), indent) + "}"
    else if MultiLine(v) then
      Indented(StyledItems(Indented(doc, indent) + "[", v, |v.items|, indent + INDENT), indent) + "]"
    else doc + "[ " + InlineItems(v, |v.items|) + " ]"
  }

  /** The first `n` elements, one on a line. */
  function StyledItems(doc: string, v: Value, n: nat, indent: string): string
    requires v.Array? && Writable(v) && n <= |v.items|
    decreases v, 0, n
  {
    if n == 0 then doc
    else Styled(Indented(StyledItems(doc, v, n - 1, indent) + (if n > 1 then "," else ""), indent), v.items[n - 1],
      indent)
  }

  function InlineItems(v: Value, n: nat): string
    requires v.Array? && Writable(v) && n <= |v.items| && forall i :: 0 <= i < n ==> IsSimple(v.items[i])
    decreases n
  {
    if n == 0 then "" else InlineItems(v, n - 1) + (if n > 1 then ", " else "") + SimpleText(v.items[n - 1])
  }

  function StyledMembers(doc: string, v: Value, n: nat, indent: string): string
    requires v.Object? && Writable(v) && n <= |v.members|
    decreases v, 0, n
  {
    if n == 0 then doc
    else
      var d := Indented(StyledMembers(doc, v, n - 1, indent) + (if n > 1 then "," else ""), indent);
      Styled(d + Quoted(v.members[n - 1].name) + " : ", v.members[n - 1].value, indent)
  }

  class StyledWriter {
    var document: string
    var indentString: string
    var childValues: seq<string>
    var addChildValues: bool

    constructor ()
      ensures !addChildValues
    {
      document, indentString, childValues, addChildValues := "", "", [], false;
    }

    method Write(root: Value) returns (text: string)
      requires Writable(root)
      modifies this
      ensures text == Styled("", root, "") + "\n"
    {
      document := "";
      addChildValues := false;
      indentString := "";
      WriteValue(root);
      document := document + "\n";
      return document;
    }

    /** Into the document, or into the list of texts that are being measured. */
    method PushValue(value: string)
      modifies `document, `childValues
      ensures if addChildValues then childValues == old(childValues) + [value] && document == old(document)
              else document == old(document) + value && childValues == old(childValues)
    {
      if addChildValues {
        childValues := childValues + [value];
      } else {
        document := document + value;
      }
    }

    method WriteIndent()
      modifies `document
      ensures document == Indented(old(document), indentString)
    {
      if |document| > 0 {
        var last := document[|document| - 1];
        if last == ' ' {
          return;
        }
        if last != '\n' {
          document := document + "\n";
        }
      }
      document := document + indentString;
    }

    method WriteWithIndent(value: string)
      modifies `document
      ensures document == Indented(old(document), indentString) + value
    {
      WriteIndent();
      document := document + value;
    }

    method Indent()
      modifies `indentString
      ensures indentString == old(indentString) + INDENT
    {
      indentString := indentString + INDENT;
    }

    method Unindent()
      requires |indentString| >= |INDENT|
      modifies `indentString
      ensures indentString == old(indentString)[..|old(indentString)| - |INDENT|]
    {
      indentString := indentString[..|indentString| - |INDENT|];
    }

    /** While texts are being measured only simple values are written. */
    method WriteValue(value: Value)
      requires Writable(value) && (addChildValues ==> IsSimple(value))
      modifies `document, `indentString, `childValues, `addChildValues
      ensures indentString == old(indentString) && addChildValues == old(addChildValues)
      ensures addChildValues ==> childValues == old(childValues) + [SimpleText(value)] && document == old(document)
      ensures !addChildValues ==> document == Styled(old(document), value, indentString)
      decreases value, 3
    {
      hide Indented, StyledItems, StyledMembers, MultiLine, FastItems, FastMembers, Quoted, Decimal, Shortened;
      match value {
        case Null =>
          PushValue("null");
        case Int(i) =>
          var t := IntToString(i);
          PushValue(t);
        case UInt(n) =>
          var t := UintToString(n);
          PushValue(t);
        case Real(d) =>
          var t := RealToString(d);
          PushValue(t);
        case Str(s) =>
          var t := ValueToQuotedString(s);
          PushValue(t);
        case Bool(b) =>
          PushValue(if b then "true" else "false");
        case Array(_) =>
          WriteArrayValue(value);
        case Object(ms) =>
          if ms == [] {
            EmptyContainers(value);
            PushValue("{}");
          } else {
            WriteMembers(value);
          }
      }
    }

    method WriteMembers(value: Value)
      requires value.Object? && Writable(value) && value.members != [] && !addChildValues
      modifies `document, `indentString, `childValues, `addChildValues
      ensures indentString == old(indentString) && !addChildValues
      ensures document == Styled(old(document), value, indentString)
      decreases value, 2
    {
      hide Styled, Indented, StyledMembers, Quoted, Writable;
      var ms := value.members;
      MemberLinesOf(document, value, indentString);
      WriteWithIndent("{");
      ghost var start := document;
      Indent();
      NoLines(start, value, indentString);
      var it := 0;
      while true
        invariant 0 <= it < |ms| && !addChildValues && indentString == old(indentString) + INDENT
        invariant document == StyledMembers(start, value, it, indentString) + (if it > 0 then "," else "")
        decreases |ms| - it
      {
        MemberWritable(value, it);
        NextMember(start, value, it, indentString);
        var name := ValueToQuotedString(ms[it].name);
        WriteWithIndent(name);
        document := document + " : ";
        WriteValue(ms[it].value);
        it := it + 1;
        if it == |ms| {
          break;
        }
        document := document + ",";
      }
      Unindent();
      assert indentString == old(indentString);
      WriteWithIndent("}");
    }

    method WriteArrayValue(value: Value)
      requires value.Array? && Writable(value) && (addChildValues ==> IsSimple(value))
      modifies `document, `indentString, `childValues, `addChildValues
      ensures indentString == old(indentString) && addChildValues == old(addChildValues)
      ensures addChildValues ==> childValues == old(childValues) + [SimpleText(value)] && document == old(document)
      ensures !addChildValues ==> document == Styled(old(document), value, indentString)
      decreases value, 2
    {
      hide Indented, StyledItems, StyledMembers, MultiLine, FastText, TextsOf;
      var size := |value.items|;
      if size == 0 {
        EmptyContainers(value);
        PushValue("[]");
        return;
      }
      var isArrayMultiLine := IsMultineArray(value);
      if isArrayMultiLine {
        WriteLines(value);
      } else {
        WriteInline(value);
      }
    }

    /** The elements of an array on one line, from the texts that were measured. */
    method WriteInline(value: Value)
      requires value.Array? && Writable(value) && value.items != [] && !MultiLine(value) && !addChildValues
      requires AllSimple(value) && childValues == TextsOf(value, |value.items|)
      modifies `document
      ensures document == Styled(old(document), value, indentString)
    {
      hide Indented, StyledItems, MultiLine, SimpleText, Writable, TextsOf;
      document := document + "[ ";
      for index := 0 to |value.items|
        invariant document == old(document) + "[ " + InlineItems(value, index)
      {
        if index > 0 {
          document := document + ", ";
        }
        TextAt(value, |value.items|, index);
        document := document + childValues[index];
      }
      document := document + " ]";
    }

    /** The elements of an array, one on a line; their texts are known if they were measured. */
    method WriteLines(value: Value)
      requires value.Array? && Writable(value) && value.items != [] && MultiLine(value) && !addChildValues
      requires childValues == [] || (AllSimple(value) && childValues == TextsOf(value, |value.items|))
      modifies `document, `indentString, `childValues, `addChildValues
      ensures indentString == old(indentString) && !addChildValues
      ensures document == Styled(old(document), value, indentString)
      decreases value, 1
    {
      hide Styled, Indented, StyledItems, MultiLine, SimpleText, Writable, TextsOf;
      var size := |value.items|;
      LinesOf(document, value, indentString);
      WriteWithIndent("[");
      ghost var start := document;
      Indent();
      NoLines(start, value, indentString);
      var hasChildValue := childValues != [];
      var index := 0;
      while true
        invariant 0 <= index < size && !addChildValues && indentString == old(indentString) + INDENT
        invariant document == StyledItems(start, value, index, indentString) + (if index > 0 then "," else "")
        invariant hasChildValue ==> AllSimple(value) && childValues == TextsOf(value, size)
        decreases size - index
      {
        ItemWritable(value, index);
        NextLine(start, value, index, indentString);
        if hasChildValue {
          TextAt(value, size, index);
          WriteWithIndent(childValues[index]);
        } else {
          WriteIndent();
          WriteValue(value.items[index]);
        }
        index := index + 1;
        if index == size {
          break;
        }
        document := document + ",";
      }
      Unindent();
      assert indentString == old(indentString);
      WriteWithIndent("]");
    }

    /** `isMultineArray`: also measures the elements if it makes sense to. */
    method IsMultineArray(value: Value) returns (isMultiLine: bool)
      requires value.Array? && Writable(value) && value.items != [] && !addChildValues
      modifies `document, `indentString, `childValues, `addChildValues
      ensures isMultiLine == MultiLine(value)
      ensures document == old(document) && indentString == old(indentString) && !addChildValues
      ensures childValues == [] || (AllSimple(value) && childValues == TextsOf(value, |value.items|))
      ensures !isMultiLine ==> AllSimple(value) && childValues == TextsOf(value, |value.items|)
      decreases value, 0
    {
      var size := |value.items|;
      isMultiLine := size * 3 >= RIGHT_MARGIN;
      childValues := [];
      var index := 0;
      while index < size && !isMultiLine
        invariant 0 <= index <= size && (isMultiLine ==> MultiLine(value))
        invariant !isMultiLine ==> size * 3 < RIGHT_MARGIN && forall j :: 0 <= j < index ==> IsSimple(value.items[j])
        invariant document == old(document) && indentString == old(indentString) && !addChildValues && childValues == []
        decreases size - index, !isMultiLine
      {
        var childValue := value.items[index];
        isMultiLine := isMultiLine || (childValue.Array? && |childValue.items| > 0)
          || (childValue.Object? && |childValue.members| > 0);
        index := index + 1;
      }
      if !isMultiLine {
        assert AllSimple(value);
        addChildValues := true;
        var lineLength := 4 + (size - 1) * 2;
        index := 0;
        while index < size
          invariant 0 <= index <= size && addChildValues
          invariant document == old(document) && indentString == old(indentString)
          invariant childValues == TextsOf(value, index) && lineLength == 4 + (size - 1) * 2 + TextLength(value, index)
        {
          WriteValue(value.items[index]);
          lineLength := lineLength + |childValues[index]|;
          index := index + 1;
        }
        addChildValues := false;
        isMultiLine := lineLength >= RIGHT_MARGIN;
      }
    }
  }

  lemma EmptyContainers(v: Value)
    requires Writable(v)
    ensures v == Array([]) ==> SimpleText(v) == "[]"
    ensures v == Object([]) ==> SimpleText(v) == "{}"
  {
  }

  lemma LinesOf(doc: string, v: Value, indent: string)
    requires v.Array? && Writable(v) && v.items != [] && MultiLine(v)
    ensures Styled(doc, v, indent)
         == Indented(StyledItems(Indented(doc, indent) + "[", v, |v.items|, indent + INDENT), indent) + "]"
  {
    hide MultiLine, Indented, StyledItems, Writable, SimpleText;
  }

  /** One more element on a line of its own; a simple one is just its text. */
  lemma NextLine(doc: string, v: Value, n: nat, indent: string)
    requires v.Array? && Writable(v) && n < |v.items|
    ensures var d := Indented(StyledItems(doc, v, n, indent) + (if n > 0 then "," else ""), indent);
      && StyledItems(doc, v, n + 1, indent) == Styled(d, v.items[n], indent)
      && (IsSimple(v.items[n]) ==> Styled(d, v.items[n], indent) == d + SimpleText(v.items[n]))
  {
    hide Indented, Writable, SimpleText;
    ItemWritable(v, n);
  }

  lemma NoLines(doc: string, v: Value, indent: string)
    requires Writable(v)
    ensures v.Array? ==> StyledItems(doc, v, 0, indent) == doc
    ensures v.Object? ==> StyledMembers(doc, v, 0, indent) == doc
  {
  }

  lemma MemberLinesOf(doc: string, v: Value, indent: string)
    requires v.Object? && Writable(v) && v.members != []
    ensures Styled(doc, v, indent)
         == Indented(StyledMembers(Indented(doc, indent) + "{", v, |v.members|, indent + INDENT), indent) + "}"
  {
    hide Indented, StyledMembers, Writable, SimpleText;
  }

  lemma NextMember(doc: string, v: Value, n: nat, indent: string)
    requires v.Object? && Writable(v) && n < |v.members|
    ensures Writable(v.members[n].value)
    ensures var d := Indented(StyledMembers(doc, v, n, indent) + (if n > 0 then "," else ""), indent);
      StyledMembers(doc, v, n + 1, indent) == Styled(d + Quoted(v.members[n].name) + " : ", v.members[n].value, indent)
  {
    hide Indented, Writable, Styled, Quoted;
    MemberWritable(v, n);
  }

  predicate AllSimple(v: Value)
    requires v.Array?
  {
    forall i :: 0 <= i < |v.items| ==> IsSimple(v.items[i])
  }

  function TextsOf(v: Value, n: nat): (r: seq<string>)
    requires v.Array? && Writable(v) && n <= |v.items| && forall i :: 0 <= i < n ==> IsSimple(v.items[i])
    ensures |r| == n
  {
    if n == 0 then [] else TextsOf(v, n - 1) + [SimpleText(v.items[n - 1])]
  }

  lemma {:induction false} TextAt(v: Value, n: nat, i: nat)
    requires v.Array? && Writable(v) && i < n <= |v.items| && forall j :: 0 <= j < n ==> IsSimple(v.items[j])
    ensures TextsOf(v, n)[i] == SimpleText(v.items[i])
  {
    if i < n - 1 { TextAt(v, n - 1, i); }
  }
}
