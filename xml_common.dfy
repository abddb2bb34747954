/**
 * src/xml_common.rs: what the configuration parsers share. A node of the
 * XML document is a value: its kind, the namespace and local name of an
 * element, its attributes without namespace, the text of a text node, its
 * children and the row and column where it starts.
 */
module XmlCommon {
  import opened Wrappers
  import opened Numbers

  const NsV1: string := "http://www.elektro-kapsel.se/xml/modbus_config/v1"
  const NsV2: string := "http://www.elektro-kapsel.se/xml/modbus_config/v2"

  type U32 = x: int | 0 <= x < 0x1_0000_0000

  /** A position in the document text, counted from 1. */
  datatype TextPos = TextPos(row: U32, col: U32)

  /** Elements, text, and every other kind of node (comments, processing instructions). */
  datatype NodeKind = Element | Text | Other

  datatype Node = Node(kind: NodeKind, namespace: Option<string>, name: string,
                       attributes: map<string, string>, text: Option<string>,
                       children: seq<Node>, pos: TextPos)

  datatype ParseErrorKind =
    | WrongNamespace
    | UnexpectedElement
    | UnexpectedText
    | UnexpectedAttribute
    | MissingAttribute(attribute: string)
      /** The attribute's name and the message of the error its parser gave. */
    | ParseAttribute(attribute: string, cause: string)

  /** An error of kind K at the start of a node. */
  datatype ParseErrorBase<K> = ParseErrorBase(kind: K, pos: TextPos)

  type ParseError = ParseErrorBase<ParseErrorKind>

  /** `ParseErrorBase::new`: the error is placed where the node starts. */
  function NewError<K>(node: Node, kind: K): (e: ParseErrorBase<K>)
    ensures e.pos == node.pos && e.kind == kind
  {
    ParseErrorBase(kind, node.pos)
  }

  /** The `Display` text of each kind. */
  function KindText(k: ParseErrorKind): string
  {
    match k
    case WrongNamespace => "Incorrect namespace for element"
    case UnexpectedElement => "Unexpected element"
    case UnexpectedText => "Unexpected non-whitespace text"
    case UnexpectedAttribute => "Unexpected attribute"
    case MissingAttribute(name) => "Missing attribute '" + name + "'"
    case ParseAttribute(name, cause) => "Failed to parse attribute '" + name + "': " + cause
  }

  /** The `Display` text of an error: "row:col: message". */
  function PositionedText(pos: TextPos, message: string): (s: string)
    ensures |s| > |message|
  {
    DecimalString(pos.row) + ":" + DecimalString(pos.col) + ": " + message
  }

  function ErrorText(e: ParseError): string
  {
    PositionedText(e.pos, KindText(e.kind))
  }

  /**
   * The text of an error can be taken apart again: the digits before the
   * first ':' are the row, those up to the next ':' the column, and after
   * ": " comes the message.
   */
  lemma PositionedTextReadBack(pos: TextPos, message: string)
    ensures var s := PositionedText(pos, message);
            var i := |DecimalString(pos.row)|;
            var j := i + 1 + |DecimalString(pos.col)|;
            && j + 2 <= |s|
            && s[i] == ':' && (forall k :: 0 <= k < i ==> s[k] != ':')
            && ParseUnsigned(s[..i], 10, 0x1_0000_0000) == Ok(pos.row)
            && s[j] == ':' && (forall k :: i < k < j ==> s[k] != ':')
            && ParseUnsigned(s[i + 1..j], 10, 0x1_0000_0000) == Ok(pos.col)
            && s[j + 1] == ' ' && s[j + 2..] == message
  {
    PositionedLayout(pos, message);
    PositionedNumbers(pos, message);
  }

  /** The separators of an error text, and the message after them. */
  lemma PositionedLayout(pos: TextPos, message: string)
    ensures var s := PositionedText(pos, message);
            var i := |DecimalString(pos.row)|;
            var j := i + 1 + |DecimalString(pos.col)|;
            && j + 2 <= |s|
            && s[i] == ':' && (forall k :: 0 <= k < i ==> s[k] != ':')
            && s[j] == ':' && (forall k :: i < k < j ==> s[k] != ':')
            && s[j + 1] == ' ' && s[j + 2..] == message
  {
    var r, c := DecimalString(pos.row), DecimalString(pos.col);
    var s := PositionedText(pos, message);
    var i, j := |r|, |r| + 1 + |c|;
    assert s == r + ":" + c + ": " + message;
    assert s[..i] == r;
    assert s[i + 1..j] == c;
    assert s[j + 2..] == message;
  }

  /** The numbers of an error text, read back. */
  lemma PositionedNumbers(pos: TextPos, message: string)
    ensures var s := PositionedText(pos, message);
            var i := |DecimalString(pos.row)|;
            var j := i + 1 + |DecimalString(pos.col)|;
            && j <= |s|
            && ParseUnsigned(s[..i], 10, 0x1_0000_0000) == Ok(pos.row)
            && ParseUnsigned(s[i + 1..j], 10, 0x1_0000_0000) == Ok(pos.col)
  {
    var r, c := DecimalString(pos.row), DecimalString(pos.col);
    var s := PositionedText(pos, message);
    var i, j := |r|, |r| + 1 + |c|;
    assert s == r + ":" + c + ": " + message;
    assert s[..i] == r;
    assert s[i + 1..j] == c;
    DecimalRoundTrip(pos.row, 0x1_0000_0000);
    DecimalRoundTrip(pos.col, 0x1_0000_0000);
  }

  // ---------------------------------------------------------------------------
  // check_element_ns

  /** `char::is_whitespace`: the characters with the Unicode White_Space property. */
  predicate IsWhitespace(c: char): (r: bool)
    ensures c as int < 0x80 ==> (r <==> c == ' ' || '\t' <= c <= '\r')
    ensures r ==> 9 <= c as int <= 0x3000
    ensures c == '\U{A0}' || c == '\U{3000}' || c == '\U{2028}' ==> r
    ensures c == '\U{FEFF}' || c == '\U{200B}' ==> !r
  {
    var n := c as int;
    || 9 <= n <= 13 || n == 0x20 || n == 0x85 || n == 0xA0 || n == 0x1680
    || 0x2000 <= n <= 0x200A || n == 0x2028 || n == 0x2029 || n == 0x202F
    || n == 0x205F || n == 0x3000
  }

  /** `find(|c| !c.is_whitespace())`: the first character that is not whitespace. */
  function FindNonWhitespace(s: string): (r: Option<nat>)
    ensures r.Some? ==> r.value < |s| && !IsWhitespace(s[r.value])
    ensures r.Some? ==> forall k :: 0 <= k < r.value ==> IsWhitespace(s[k])
    ensures r.None? ==> forall k :: 0 <= k < |s| ==> IsWhitespace(s[k])
  {
    if s == [] then None
    else if !IsWhitespace(s[0]) then Some(0)
    else match FindNonWhitespace(s[1..])
      case None => None
      case Some(i) => Some(i + 1)
  }

  predicate InNamespace(node: Node)
  {
    node.namespace == Some(NsV1) || node.namespace == Some(NsV2)
  }

  /** A text node with something other than whitespace in it. */
  predicate HasContent(node: Node)
  {
    node.kind == Text && node.text.Some? && exists k :: 0 <= k < |node.text.value| && !IsWhitespace(node.text.value[k])
  }

  /**
   * `check_element_ns`: true for an element of either configuration
   * namespace, an error for an element of another namespace or of none and
   * for text that is not whitespace, false for everything else.
   */
  function CheckElementNs(node: Node): (r: Result<bool, ParseError>)
    ensures r == Ok(true) <==> node.kind == Element && InNamespace(node)
    ensures r == Err(NewError(node, WrongNamespace)) <==> node.kind == Element && !InNamespace(node)
    ensures r == Err(NewError(node, UnexpectedText)) <==> HasContent(node)
    ensures r == Ok(false) <==> node.kind != Element && !HasContent(node)
    ensures r.Err? ==> r.error.pos == node.pos
  {
    if node.kind == Element then
      if !InNamespace(node) then Err(NewError(node, WrongNamespace)) else Ok(true)
    else if node.kind == Text then
      match node.text
      case Some(text) =>
        if FindNonWhitespace(text).Some? then Err(NewError(node, UnexpectedText)) else Ok(false)
      case None => Ok(false)
    else Ok(false)
  }

  // ---------------------------------------------------------------------------
  // required_attribute / optional_attribute
  //
  // `T::from_str` is given as `read`, whose error is the message the error
  // type displays.

  /** `required_attribute`: the attribute, read; missing and unreadable are errors. */
  function RequiredAttribute<T>(node: Node, name: string, read: string -> Result<T, string>): (r: Result<T, ParseError>)
    ensures name !in node.attributes <==> r == Err(NewError(node, MissingAttribute(name)))
    ensures name in node.attributes ==>
              match read(node.attributes[name])
              case Ok(v) => r == Ok(v)
              case Err(m) => r == Err(NewError(node, ParseAttribute(name, m)))
  {
    if name !in node.attributes then Err(NewError(node, MissingAttribute(name)))
    else
      match read(node.attributes[name])
      case Ok(v) => Ok(v)
      case Err(m) => Err(NewError(node, ParseAttribute(name, m)))
  }

  /** `optional_attribute`: a missing attribute is `None`, an unreadable one an error. */
  function OptionalAttribute<T>(node: Node, name: string, read: string -> Result<T, string>): (r: Result<Option<T>, ParseError>)
    ensures name !in node.attributes <==> r == Ok(None)
    ensures name in node.attributes ==>
              match read(node.attributes[name])
              case Ok(v) => r == Ok(Some(v))
              case Err(m) => r == Err(NewError(node, ParseAttribute(name, m)))
  {
    if name !in node.attributes then Ok(None)
    else
      match read(node.attributes[name])
      case Ok(v) => Ok(Some(v))
      case Err(m) => Err(NewError(node, ParseAttribute(name, m)))
  }

  /**
   * The two readers agree: an attribute that is present gives the same value
   * or the same error either way, and an absent one is `None` to the
   * optional reader exactly when it is missing to the required one.
   */
  lemma AttributeReadersAgree<T>(node: Node, name: string, read: string -> Result<T, string>)
    ensures OptionalAttribute(node, name, read) == Ok(None) <==>
            RequiredAttribute(node, name, read) == Err(NewError(node, MissingAttribute(name)))
    ensures forall v :: OptionalAttribute(node, name, read) == Ok(Some(v)) <==> RequiredAttribute(node, name, read) == Ok(v)
    ensures OptionalAttribute(node, name, read).Err? ==>
              RequiredAttribute(node, name, read).Err? &&
              RequiredAttribute(node, name, read).error == OptionalAttribute(node, name, read).error
  {
  }

  /** `String::from_str`, which cannot fail. */
  function ReadString(s: string): Result<string, string>
  {
    Ok(s)
  }
}
