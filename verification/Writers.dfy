/** `FastWriter` and `StyledWriter`, which append to a document while they walk a value. */
module Writers {
  import opened Text
  import opened Numbers
  import opened Strings
  import opened Values
  import opened Layout

  /** `getMemberNames`. */
  function MemberNames(es: Entries): (names: seq<string>)
    ensures |names| == Count(es)
  {
    if es.Nil? then [] else [NameText(es.key)] + MemberNames(es.rest)
  }

  function Drop(es: Entries, k: nat): (fs: Entries)
    requires k <= Count(es)
    ensures Count(fs) == Count(es) - k
  {
    if k == 0 then es else Drop(es.rest, k - 1)
  }

  lemma {:induction false} DropStep(es: Entries, k: nat)
    requires k < Count(es)
    ensures Drop(es, k).Cons? && Drop(es, k + 1) == Drop(es, k).rest
  {
    if k > 0 {
      DropStep(es.rest, k - 1);
    }
  }

  /** Looking a member up by its name finds the entry the name was taken from. */
  lemma {:induction false} NamedEntry(es: Entries, k: nat)
    requires Sorted(es) && Sort(es, false) && WellFormedOf(es) && k < Count(es)
    ensures var e := Drop(es, k);
            e.Cons? && e.key == Name(MemberNames(es)[k]) && Get(es, Name(MemberNames(es)[k])) == e.val &&
            NulFree(MemberNames(es)[k]) && WellFormed(e.val) && Weight(e.val) < WeightOf(es)
  {
    if k > 0 {
      NamedEntry(es.rest, k - 1);
      AboveEntry(es.key, es.rest, k - 1);
      KeyTotal(es.key, Name(MemberNames(es)[k]));
    }
  }

  lemma {:induction false} AboveEntry(low: Key, es: Entries, k: nat)
    requires Above(low, es) && k < Count(es)
    ensures Drop(es, k).Cons? && KeyLess(low, Drop(es, k).key)
  {
    if k > 0 {
      AboveEntry(low, es.rest, k - 1);
    }
  }

  lemma {:induction false} GetWellFormed(es: Entries, key: Key)
    requires WellFormedOf(es)
    ensures WellFormed(Get(es, key))
  {
    if es.Cons? {
      GetWellFormed(es.rest, key);
    }
  }

  lemma NameTextOf(key: Key)
    ensures key.Name? ==> NameText(key) == key.name
  {
  }

  /** The text of a scalar. */
  method ScalarText(p: Printer, v: Value) returns (text: string)
    requires WellFormed(v) && !v.data.Arr? && !v.data.Obj?
    ensures text == Flat(p, v)
  {
    match v.data {
      case Null => text := "null";
      case Int(i) => text := SignedToString(i);
      case UInt(u) => text := UnsignedToString(u);
      case Real(bits) => text := p(bits);
      case Str(s) => text := ValueToQuotedString(s);
      case Bool(b) => text := if b then "true" else "false";
    }
  }

  class FastWriter {
    const style: FastStyle
    var document: string

    constructor (style: FastStyle)
      ensures this.style == style
    {
      this.style := style;
      document := "";
    }

    method Write(root: Value) returns (text: string)
      requires WellFormed(root)
      modifies this
      ensures text == document == FastText(style, root)
    {
      document := "";
      WriteValue(root);
      document := document + "\n";
      text := document;
    }

    method WriteValue(value: Value)
      requires WellFormed(value)
      modifies this
      ensures document == old(document) + Fast(style, value)
      decreases Weight(value), 0
    {
      match value.data {
        case Null =>
          if !style.dropNulls {
            document := document + "null";
          }
        case Arr(es) =>
          WriteArray(es);
        case Obj(es) =>
          WriteObject(es);
        case _ =>
          var text := ScalarText(style.double, value);
          document := document + text;
      }
    }

    method WriteItem(value: Value, first: bool)
      requires WellFormed(value)
      modifies this
      ensures document == old(document) + FastItem(style, value, first)
      decreases Weight(value), 1
    {
      hide Fast;
      ghost var before := document;
      if !first {
        document := document + ",";
      }
      WriteValue(value);
      Associates(before, if first then "" else ",", Fast(style, value));
    }

    method WriteMember(name: string, value: Value, first: bool)
      requires WellFormed(value) && NulFree(name)
      modifies this
      ensures document == old(document) + FastMember(style, name, value, first)
      decreases Weight(value), 1
    {
      hide Fast, Quote;
      ghost var before := document;
      var quoted := ValueToQuotedString(name);
      var colon := if style.yaml then ": " else ":";
      document := document + (if first then "" else ",");
      document := document + quoted;
      document := document + colon;
      WriteValue(value);
      assert document == before + (if first then "" else ",") + quoted + colon + Fast(style, value);
      assert document == before + ((if first then "" else ",") + quoted + colon + Fast(style, value));
    }

    method WriteArray(es: Entries)
      requires WellFormedOf(es)
      modifies this
      ensures document == old(document) + "[" + FastItems(style, es, 0) + "]"
      decreases WeightOf(es), 2
    {
      document := document + "[";
      var size := Size(es);
      ghost var target := document + FastItems(style, es, 0);
      for index := 0 to size
        invariant document + FastItems(style, es, index) == target
      {
        hide *;
        FastItemsStep(style, es, index);
        GetWeight(es, Idx(index));
        GetWellFormed(es, Idx(index));
        ghost var before := document;
        WriteItem(At(es, index), index == 0);
        Associates(before, FastItem(style, At(es, index), index == 0), FastItems(style, es, index + 1));
      }
      assert FastItems(style, es, size) == "" && document + "" == document;
      document := document + "]";
    }

    method WriteObject(es: Entries)
      requires WellFormedOf(es) && Sorted(es) && Sort(es, false)
      modifies this
      ensures document == old(document) + "{" + FastMembers(style, es, true) + "}"
      decreases WeightOf(es), 2
    {
      var members := MemberNames(es);
      document := document + "{";
      ghost var target := document + FastMembers(style, es, true);
      for it := 0 to |members|
        invariant document + FastMembers(style, Drop(es, it), it == 0) == target
      {
        hide *;
        NamedEntry(es, it);
        DropStep(es, it);
        FastMembersStep(style, Drop(es, it), it == 0);
        var name := members[it];
        ghost var before := document;
        WriteMember(name, Get(es, Name(name)), it == 0);
        Associates(before, FastMember(style, name, Get(es, Name(name)), it == 0),
                   FastMembers(style, Drop(es, it + 1), false));
        NameTextOf(Drop(es, it).key);
      }
      assert FastMembers(style, Drop(es, |members|), |members| == 0) == "" && document + "" == document;
      document := document + "}";
    }
  }

  /** `childValues_` is filled only while a single line is measured; `indentString_` holds spaces. */
  class StyledWriter {
    const double: Printer
    var document: string
    var childValues: seq<string>
    var indentString: string
    var addChildValues: bool

    constructor (double: Printer)
      ensures this.double == double && !addChildValues && indentString == ""
    {
      this.double := double;
      document, childValues, indentString, addChildValues := "", [], "", false;
    }

    predicate Valid()
      reads this`indentString
    {
      indentString == Spaces(|indentString|)
    }

    method Write(root: Value) returns (text: string)
      requires WellFormed(root)
      modifies this
      ensures text == document == StyledText(double, root)
    {
      document := "";
      addChildValues := false;
      indentString := "";
      WriteValue(root);
      document := document + "\n";
      text := document;
    }

    method PushValue(text: string)
      modifies this`document, this`childValues
      ensures addChildValues ==> document == old(document) && childValues == old(childValues) + [text]
      ensures !addChildValues ==> document == old(document) + text && childValues == old(childValues)
    {
      if addChildValues {
        childValues := childValues + [text];
      } else {
        document := document + text;
      }
    }

    method WriteIndentation()
      requires Valid()
      modifies this`document
      ensures document == WriteIndent(old(document), |indentString|)
    {
      if document != "" {
        var last := document[|document| - 1];
        if last == ' ' {
          return;
        }
        if last != '\n' {
          document := document + "\n";
        }
      }
      document := document + indentString;
    }

    method WriteWithIndent(text: string)
      requires Valid()
      modifies this`document
      ensures document == PutIndented(old(document), |indentString|, text)
    {
      WriteIndentation();
      document := document + text;
    }

    method Indent()
      requires Valid()
      modifies this`indentString
      ensures Valid() && |indentString| == |old(indentString)| + INDENT_SIZE
    {
      indentString := indentString + Spaces(INDENT_SIZE);
    }

    method Unindent()
      requires Valid() && |indentString| >= INDENT_SIZE
      modifies this`indentString
      ensures Valid() && |indentString| == |old(indentString)| - INDENT_SIZE
    {
      indentString := indentString[..|indentString| - INDENT_SIZE];
    }

    /**
     * While child values are collected only values that fit on a line of their own are written, and
     * each adds exactly its text to the buffer; otherwise the value goes to the document.
     */
    method WriteValue(value: Value)
      requires WellFormed(value) && Valid() && (addChildValues ==> !Filled(value))
      modifies this
      ensures addChildValues == old(addChildValues) && indentString == old(indentString)
      ensures addChildValues ==> document == old(document) && childValues == old(childValues) + [Flat(double, value)]
      ensures !addChildValues ==> document == Styled(double, old(document), |indentString|, value)
      decreases Weight(value), 2
    {
      match value.data {
        case Arr(es) =>
          WriteArrayValue(value);
        case Obj(es) =>
          if Count(es) == 0 {
            PushValue("{}");
          } else {
            WriteObjectValue(value);
          }
        case _ =>
          var text := ScalarText(double, value);
          PushValue(text);
      }
    }

    method WriteObjectValue(value: Value)
      requires WellFormed(value) && Valid() && !addChildValues && value.data.Obj? && Filled(value)
      modifies this
      ensures !addChildValues && indentString == old(indentString)
      ensures document == Styled(double, old(document), |indentString|, value)
      decreases Weight(value), 1
    {
      StyledObject(double, document, |indentString|, value);
      hide Styled, PutIndented, StyledMembers;
      WriteWithIndent("{");
      Indent();
      WriteMembers(value.data.entries);
      Unindent();
      WriteWithIndent("}");
    }

    method WriteMembers(es: Entries)
      requires WellFormedOf(es) && Sorted(es) && Sort(es, false) && es.Cons? && Valid() && !addChildValues
      modifies this
      ensures !addChildValues && indentString == old(indentString)
      ensures document == StyledMembers(double, old(document), |indentString|, es)
      decreases WeightOf(es), 4
    {
      var members := MemberNames(es);
      ghost var indent := |indentString|;
      ghost var target := StyledMembers(double, document, indent, es);
      var it := 0;
      while true
        invariant 0 <= it < |members| == Count(es) && members == MemberNames(es)
        invariant Valid() && !addChildValues && indentString == old(indentString)
        invariant Drop(es, it).Cons? && StyledMembers(double, document, indent, Drop(es, it)) == target
        decreases |members| - it
      {
        hide *;
        NamedEntry(es, it);
        DropStep(es, it);
        NameTextOf(Drop(es, it).key);
        StyledMembersStep(double, document, indent, Drop(es, it));
        var name := members[it];
        WriteMember(name, Get(es, Name(name)));
        it := it + 1;
        if it == |members| {
          NoneLeft(Drop(es, it));
          break;
        }
        DropStep(es, it);
        document := document + ",";
      }
    }

    method WriteMember(name: string, childValue: Value)
      requires WellFormed(childValue) && NulFree(name) && Valid() && !addChildValues
      modifies this
      ensures !addChildValues && indentString == old(indentString)
      ensures document == Styled(double, PutIndented(old(document), |indentString|, Quote(name)) + " : ",
                                 |indentString|, childValue)
      decreases Weight(childValue), 3
    {
      hide *;
      var quoted := ValueToQuotedString(name);
      WriteWithIndent(quoted);
      document := document + " : ";
      WriteValue(childValue);
    }

    method WriteArrayValue(value: Value)
      requires WellFormed(value) && Valid() && value.data.Arr? && (addChildValues ==> !Filled(value))
      modifies this
      ensures addChildValues == old(addChildValues) && indentString == old(indentString)
      ensures addChildValues ==> document == old(document) && childValues == old(childValues) + [Flat(double, value)]
      ensures !addChildValues ==> document == Styled(double, old(document), |indentString|, value)
      decreases Weight(value), 1
    {
      var size := Size(value.data.entries);
      if size == 0 {
        hide StyledItems, StyledMembers, PutIndented, Multiline, Join, FlatItems;
        PushValue("[]");
      } else {
        hide Styled, Flat, WellFormedOf, Size;
        WriteFilledArray(value);
      }
    }

    method WriteFilledArray(value: Value)
      requires WellFormed(value) && Valid() && value.data.Arr? && Size(value.data.entries) > 0 && !addChildValues
      modifies this
      ensures !addChildValues && indentString == old(indentString)
      ensures document == Styled(double, old(document), |indentString|, value)
      decreases Weight(value), 0
    {
      var es := value.data.entries;
      assert WellFormedOf(es) && WeightOf(es) < Weight(value);
      hide *;
      ghost var doc, n := document, |indentString|;
      StyledArray(double, doc, n, value);
      var isMultiline := IsMultilineArray(es);
      if isMultiline {
        WriteWithIndent("[");
        Indent();
        assert document == PutIndented(doc, n, "[") && |indentString| == n + INDENT_SIZE;
        WriteItems(es);
        Unindent();
        WriteWithIndent("]");
      } else {
        var size := Size(es);
        assert |childValues| == size;
        document := document + "[ ";
        WriteChildValues(size);
        document := document + " ]";
      }
    }

    /** The elements of an array on one line. */
    method WriteChildValues(size: nat)
      requires |childValues| == size > 0
      modifies this`document
      ensures document == old(document) + Join(childValues)
    {
      assert childValues[0..] == childValues;
      ghost var target := document + Join(childValues);
      for index := 0 to size
        invariant document + (if 0 < index < size then ", " else "") + Join(childValues[index..]) == target
      {
        hide *;
        JoinStep(childValues, index);
        ghost var separated := document + (if index > 0 then ", " else "");
        if index > 0 {
          document := document + ", ";
        }
        document := document + childValues[index];
        ghost var next := if index + 1 < size then ", " else "";
        Associates(separated, childValues[index] + next, Join(childValues[index + 1..]));
        Associates(separated, childValues[index], next);
        assert document == separated + childValues[index] by {
          assert document == (if index > 0 then separated else separated) + childValues[index];
        }
      }
      assert document + "" == document;
    }

    /** The lines of an array; cached texts are used when the buffer holds any. */
    method WriteItems(es: Entries)
      requires WellFormedOf(es) && Valid() && !addChildValues && Size(es) > 0
      requires childValues == [] || (AllFlat(es) && childValues == FlatItems(double, es, 0))
      modifies this
      ensures !addChildValues && indentString == old(indentString)
      ensures document == StyledItems(double, old(document), |indentString|, es, 0)
      decreases WeightOf(es), 4
    {
      var size := Size(es);
      var hasChildValue := childValues != [];
      ghost var target := StyledItems(double, document, |indentString|, es, 0);
      var index := 0;
      while true
        invariant 0 <= index < size == Size(es) && Valid() && !addChildValues && indentString == old(indentString)
        invariant hasChildValue ==> AllFlat(es) && childValues == FlatItems(double, es, 0)
        invariant StyledItems(double, document, |indentString|, es, index) == target
        decreases size - index
      {
        hide *;
        StyledItemsStep(double, document, |indentString|, es, index);
        WriteElement(es, index, hasChildValue);
        index := index + 1;
        if index == size {
          break;
        }
        document := document + ",";
      }
    }

    /** An element on a line of its own: from the buffer, or written anew.  Both come to the same. */
    method WriteElement(es: Entries, index: nat, hasChildValue: bool)
      requires WellFormedOf(es) && Valid() && !addChildValues && index < Size(es)
      requires hasChildValue ==> AllFlat(es) && childValues == FlatItems(double, es, 0)
      modifies this
      ensures !addChildValues && indentString == old(indentString)
      ensures hasChildValue ==> childValues == old(childValues)
      ensures document == Styled(double, WriteIndent(old(document), |indentString|), |indentString|, At(es, index))
      decreases WeightOf(es), 3
    {
      if hasChildValue {
        FlatItemAt(double, es, 0, index);
        WriteWithIndent(childValues[index]);
      } else {
        GetWeight(es, Idx(index));
        GetWellFormed(es, Idx(index));
        hide *;
        WriteIndentation();
        WriteValue(At(es, index));
      }
    }

    /**
     * `isMultineArray`: measures the array.  Whenever the buffer is left non-empty, it holds exactly
     * one text per element, in order; it does so for every array that fits on a line.
     */
    method IsMultilineArray(es: Entries) returns (isMultiline: bool)
      requires WellFormedOf(es) && Valid() && !addChildValues && Size(es) > 0
      modifies this
      ensures !addChildValues && indentString == old(indentString) && document == old(document)
      ensures isMultiline == Multiline(double, es)
      ensures !isMultiline ==> AllFlat(es) && childValues == FlatItems(double, es, 0)
      ensures childValues == [] || (AllFlat(es) && childValues == FlatItems(double, es, 0))
      decreases WeightOf(es), 4
    {
      var size := Size(es);
      isMultiline := size * 3 >= RIGHT_MARGIN;
      childValues := [];
      var index := 0;
      while index < size && !isMultiline
        invariant 0 <= index <= size
        invariant !isMultiline ==> size * 3 < RIGHT_MARGIN && forall i :: 0 <= i < index ==> !Filled(At(es, i))
        invariant isMultiline ==> size * 3 >= RIGHT_MARGIN || !AllFlat(es)
      {
        hide Filled, Get, Size;
        isMultiline := Filled(At(es, index));
        index := index + 1;
      }
      hide Filled, Get, Size, FlatItems, TotalLength;
      if !isMultiline {
        var lineLength := CollectChildValues(es);
        isMultiline := lineLength >= RIGHT_MARGIN;
      }
    }

    /** Collects the texts of the elements and adds up the length of the line they make. */
    method CollectChildValues(es: Entries) returns (lineLength: nat)
      requires WellFormedOf(es) && Valid() && !addChildValues && Size(es) > 0 && AllFlat(es) && childValues == []
      modifies this
      ensures !addChildValues && indentString == old(indentString) && document == old(document)
      ensures childValues == FlatItems(double, es, 0)
      ensures lineLength == 4 + (Size(es) - 1) * 2 + TotalLength(FlatItems(double, es, 0))
      decreases WeightOf(es), 3
    {
      hide Flat, FlatItems, TotalLength, Size, Get, Find, WellFormed, WellFormedOf, Styled, Filled, Weight, WeightOf;
      var size := Size(es);
      addChildValues := true;
      var base := 4 + (size - 1) * 2;
      lineLength := base;
      NothingLong();
      for index := 0 to size
        invariant size == Size(es) && addChildValues && Valid()
        invariant indentString == old(indentString) && document == old(document)
        invariant |childValues| == index && forall i :: 0 <= i < index ==> childValues[i] == Flat(double, At(es, i))
        invariant lineLength == base + TotalLength(childValues)
      {
        assert !Filled(At(es, index));
        hide *;
        GetWeight(es, Idx(index));
        GetWellFormed(es, Idx(index));
        TotalLengthGrows(childValues, Flat(double, At(es, index)));
        WriteValue(At(es, index));
        lineLength := lineLength + |childValues[index]|;
      }
      FlatItemsAre(double, es, childValues);
      addChildValues := false;
    }
  }

  lemma NothingLong()
    ensures TotalLength([]) == 0
  {
  }

  lemma NoneLeft(es: Entries)
    ensures Count(es) == 0 <==> es.Nil?
  {
  }
}
