/** What `FastWriter` and `StyledWriter` print, as functions of the value. */
module Layout {
  import opened Numbers
  import opened Strings
  import opened Values

  /** How doubles are printed is left open. */
  type Printer = nat -> string

  const RIGHT_MARGIN: nat := 74
  const INDENT_SIZE: nat := 3

  /** A container with something in it. */
  predicate Filled(v: Value) {
    match v.data
    case Arr(es) => Size(es) > 0
    case Obj(es) => es.Cons?
    case _ => false
  }

  /** The text of a value on one line by itself: a scalar or an empty container. */
  function Flat(p: Printer, v: Value): string
    requires !Filled(v)
  {
    match v.data
    case Null => "null"
    case Int(i) => IntText(i as int)
    case UInt(u) => IntText(u as int)
    case Real(bits) => p(bits)
    case Str(s) => Quote(s)
    case Bool(b) => if b then "true" else "false"
    case Arr(_) => "[]"
    case Obj(_) => "{}"
  }

  // ----- FastWriter -----

  datatype FastStyle = FastStyle(double: Printer, yaml: bool, dropNulls: bool)

  function Fast(f: FastStyle, v: Value): string
    decreases Weight(v), 0, 0
  {
    match v.data
    case Null => if f.dropNulls then "" else "null"
    case Arr(es) => "[" + FastItems(f, es, 0) + "]"
    case Obj(es) => "{" + FastMembers(f, es, true) + "}"
    case _ => Flat(f.double, v)
  }

  function FastItems(f: FastStyle, es: Entries, index: nat): string
    requires index <= Size(es)
    decreases WeightOf(es), 1, Size(es) - index
  {
    if index == Size(es) then ""
    else
      GetWeight(es, Idx(index));
      FastItem(f, At(es, index), index == 0) + FastItems(f, es, index + 1)
  }

  function FastMembers(f: FastStyle, es: Entries, first: bool): string
    decreases WeightOf(es), 1, 0
  {
    if es.Nil? then ""
    else FastMember(f, NameText(es.key), es.val, first) + FastMembers(f, es.rest, false)
  }

  /** An element with the comma before it. */
  function FastItem(f: FastStyle, v: Value, first: bool): string
    decreases Weight(v), 0, 1
  {
    (if first then "" else ",") + Fast(f, v)
  }

  /** A member with the comma before it. */
  function FastMember(f: FastStyle, name: string, v: Value, first: bool): string
    decreases Weight(v), 0, 1
  {
    (if first then "" else ",") + Quote(name) + (if f.yaml then ": " else ":") + Fast(f, v)
  }

  /** The name of an object's key. */
  function NameText(key: Key): string {
    match key
    case Name(name) => name
    case Idx(_) => ""
  }

  // ----- StyledWriter -----

  function Spaces(n: nat): (s: string)
    ensures |s| == n && forall i :: 0 <= i < n ==> s[i] == ' '
  {
    seq(n, _ => ' ')
  }

  /** `writeIndent`: nothing behind a space, a new line unless there is one. */
  function WriteIndent(doc: string, indent: nat): string {
    if doc == "" || doc[|doc| - 1] == '\n' then doc + Spaces(indent)
    else if doc[|doc| - 1] == ' ' then doc
    else doc + "\n" + Spaces(indent)
  }

  function PutIndented(doc: string, indent: nat, text: string): string {
    WriteIndent(doc, indent) + text
  }

  /** The texts of the elements from `index` on. */
  function FlatItems(p: Printer, es: Entries, index: nat): (texts: seq<string>)
    requires index <= Size(es)
    requires forall i :: index <= i < Size(es) ==> !Filled(At(es, i))
    ensures |texts| == Size(es) - index
    decreases Size(es) - index
  {
    if index == Size(es) then [] else [Flat(p, At(es, index))] + FlatItems(p, es, index + 1)
  }

  function TotalLength(texts: seq<string>): nat {
    if texts == [] then 0 else |texts[0]| + TotalLength(texts[1..])
  }

  predicate AllFlat(es: Entries) {
    forall i :: 0 <= i < Size(es) ==> !Filled(At(es, i))
  }

  /** Whether an array goes over several lines. */
  predicate Multiline(p: Printer, es: Entries) {
    Size(es) * 3 >= RIGHT_MARGIN || !AllFlat(es) ||
    4 + (Size(es) - 1) * 2 + TotalLength(FlatItems(p, es, 0)) >= RIGHT_MARGIN
  }

  function Join(texts: seq<string>): string {
    if texts == [] then "" else if |texts| == 1 then texts[0] else texts[0] + ", " + Join(texts[1..])
  }

  /** `writeValue` on top of the document `doc`. */
  function Styled(p: Printer, doc: string, indent: nat, v: Value): string
    decreases Weight(v), 0, 0
  {
    if !Filled(v) then doc + Flat(p, v)
    else
      match v.data
      case Arr(es) =>
        if Multiline(p, es) then
          PutIndented(StyledItems(p, PutIndented(doc, indent, "["), indent + INDENT_SIZE, es, 0), indent, "]")
        else doc + "[ " + Join(FlatItems(p, es, 0)) + " ]"
      case Obj(es) =>
        PutIndented(StyledMembers(p, PutIndented(doc, indent, "{"), indent + INDENT_SIZE, es), indent, "}")
      case _ => doc
  }

  function StyledItems(p: Printer, doc: string, indent: nat, es: Entries, index: nat): string
    requires index < Size(es)
    decreases WeightOf(es), 1, Size(es) - index
  {
    GetWeight(es, Idx(index));
    var d := Styled(p, WriteIndent(doc, indent), indent, At(es, index));
    if index + 1 == Size(es) then d else StyledItems(p, d + ",", indent, es, index + 1)
  }

  function StyledMembers(p: Printer, doc: string, indent: nat, es: Entries): string
    requires es.Cons?
    decreases WeightOf(es), 1, 0
  {
    var d := Styled(p, PutIndented(doc, indent, Quote(NameText(es.key))) + " : ", indent, es.val);
    if es.rest.Nil? then d else StyledMembers(p, d + ",", indent, es.rest)
  }

  /** The whole document, `toStyledString`. */
  function StyledText(p: Printer, v: Value): string {
    Styled(p, "", 0, v) + "\n"
  }

  function FastText(f: FastStyle, v: Value): string {
    Fast(f, v) + "\n"
  }

  // ----- the recursive texts, one step at a time -----

  lemma FastItemsStep(f: FastStyle, es: Entries, index: nat)
    requires index < Size(es)
    ensures FastItems(f, es, index) == FastItem(f, At(es, index), index == 0) + FastItems(f, es, index + 1)
  {
    hide FastItem, Get, Size;
  }

  lemma FastMembersStep(f: FastStyle, es: Entries, first: bool)
    requires es.Cons?
    ensures FastMembers(f, es, first) ==
              FastMember(f, NameText(es.key), es.val, first) + FastMembers(f, es.rest, false)
  {
    hide FastMember;
  }

  lemma StyledItemsStep(p: Printer, doc: string, indent: nat, es: Entries, index: nat)
    requires index < Size(es)
    ensures var d := Styled(p, WriteIndent(doc, indent), indent, At(es, index));
            StyledItems(p, doc, indent, es, index) ==
              if index + 1 == Size(es) then d else StyledItems(p, d + ",", indent, es, index + 1)
  {
    hide Styled, Get, WriteIndent, Size;
  }

  lemma StyledMembersStep(p: Printer, doc: string, indent: nat, es: Entries)
    requires es.Cons?
    ensures var d := Styled(p, PutIndented(doc, indent, Quote(NameText(es.key))) + " : ", indent, es.val);
            StyledMembers(p, doc, indent, es) ==
              if es.rest.Nil? then d else StyledMembers(p, d + ",", indent, es.rest)
  {
    hide Styled, Quote, PutIndented;
  }

  lemma StyledArray(p: Printer, doc: string, indent: nat, v: Value)
    requires v.data.Arr? && Size(v.data.entries) > 0
    ensures var es := v.data.entries;
            Styled(p, doc, indent, v) ==
              if Multiline(p, es) then
                PutIndented(StyledItems(p, PutIndented(doc, indent, "["), indent + INDENT_SIZE, es, 0), indent, "]")
              else doc + "[ " + Join(FlatItems(p, es, 0)) + " ]"
    ensures !Multiline(p, v.data.entries) ==> AllFlat(v.data.entries)
  {
    hide PutIndented, StyledItems, Join, FlatItems, Size;
  }

  lemma StyledObject(p: Printer, doc: string, indent: nat, v: Value)
    requires v.data.Obj? && v.data.entries.Cons?
    ensures Styled(p, doc, indent, v) ==
              PutIndented(StyledMembers(p, PutIndented(doc, indent, "{"), indent + INDENT_SIZE, v.data.entries),
                          indent, "}")
  {
    hide PutIndented, StyledMembers;
  }

  lemma FlatItemsStep(p: Printer, es: Entries, index: nat)
    requires AllFlat(es) && index < Size(es)
    ensures FlatItems(p, es, index) == [Flat(p, At(es, index))] + FlatItems(p, es, index + 1)
    ensures TotalLength(FlatItems(p, es, index)) == |Flat(p, At(es, index))| + TotalLength(FlatItems(p, es, index + 1))
  {
    hide Flat, Get, Size, Filled;
  }

  lemma {:induction false} FlatItemAt(p: Printer, es: Entries, from: nat, index: nat)
    requires AllFlat(es) && from <= index < Size(es)
    ensures FlatItems(p, es, from)[index - from] == Flat(p, At(es, index))
    decreases index - from
  {
    hide *;
    FlatItemsStep(p, es, from);
    if from < index {
      FlatItemAt(p, es, from + 1, index);
    }
  }

  lemma FlatItemsAre(p: Printer, es: Entries, texts: seq<string>)
    requires AllFlat(es) && |texts| == Size(es)
    requires forall i :: 0 <= i < Size(es) ==> texts[i] == Flat(p, At(es, i))
    ensures texts == FlatItems(p, es, 0)
  {
    hide Flat, Filled, Get, Size;
    forall i | 0 <= i < Size(es) ensures texts[i] == FlatItems(p, es, 0)[i] {
      FlatItemAt(p, es, 0, i);
    }
  }

  lemma {:induction false} TotalLengthGrows(texts: seq<string>, text: string)
    ensures TotalLength(texts + [text]) == TotalLength(texts) + |text|
  {
    if texts == [] {
      assert TotalLength([text]) == |text| + TotalLength([]);
    } else {
      TotalLengthGrows(texts[1..], text);
      assert (texts + [text])[1..] == texts[1..] + [text];
    }
  }

  lemma JoinItemsStep(p: Printer, es: Entries, index: nat)
    requires AllFlat(es) && index < Size(es)
    ensures Join(FlatItems(p, es, index)) ==
              if index + 1 == Size(es) then Flat(p, At(es, index))
              else Flat(p, At(es, index)) + ", " + Join(FlatItems(p, es, index + 1))
  {
    FlatItemsStep(p, es, index);
    hide Flat, FlatItems, Get, Size, Filled;
    assert FlatItems(p, es, index)[1..] == FlatItems(p, es, index + 1);
  }

  lemma JoinStep(texts: seq<string>, k: nat)
    requires k < |texts|
    ensures Join(texts[k..]) == texts[k] + (if k + 1 < |texts| then ", " else "") + Join(texts[k + 1..])
  {
    assert texts[k..][1..] == texts[k + 1..];
  }
}
