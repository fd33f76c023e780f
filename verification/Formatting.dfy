/** What the reader builds: complete, canonical trees, so that reading and printing again changes nothing. */
module Formatting {
  import opened Text
  import opened Numbers
  import opened Strings
  import opened Tokens
  import opened Values
  import opened Parser
  import opened Layout
  import opened RoundTrip
  import opened Factoring
  import Arrays
  import Locality
  import Wire

  /** A tree without gaps in its arrays, whose numbers are of the kind their range asks for. */
  ghost predicate Built(v: Value) {
    match v.data
    case Int(i) => i as int <= MAX_INT
    case UInt(u) => u as int > MAX_INT
    case Str(s) => NulFree(s)
    case Arr(es) => Dense(es, 0)
    case Obj(es) => BuiltMembers(es) && Sorted(es) && Sort(es, false)
    case _ => true
  }

  /** The entries from `index` on, none missing. */
  ghost predicate Dense(es: Entries, index: nat) {
    es.Cons? ==> es.key == Idx(index) && Built(es.val) && Dense(es.rest, index + 1)
  }

  ghost predicate BuiltMembers(es: Entries) {
    es.Cons? ==> es.key.Name? && NulFree(es.key.name) && Built(es.val) && BuiltMembers(es.rest)
  }

  // ----- entries -----

  lemma {:induction false} GetDense(es: Entries, index: nat, key: Key)
    requires Dense(es, index)
    ensures Built(Get(es, key))
  {
    if es.Cons? {
      GetDense(es.rest, index + 1, key);
    }
  }

  lemma {:induction false} GetMember(es: Entries, key: Key)
    requires BuiltMembers(es)
    ensures Built(Get(es, key))
  {
    if es.Cons? {
      GetMember(es.rest, key);
    }
  }

  lemma {:induction false} PutDense(es: Entries, index: nat, v: Value)
    requires Dense(es, index) && Built(v)
    ensures Dense(Put(es, Idx(index + Count(es)), v), index)
    ensures Count(Put(es, Idx(index + Count(es)), v)) == Count(es) + 1
  {
    hide Built;
    if es.Cons? {
      PutDense(es.rest, index + 1, v);
    }
  }

  lemma {:induction false} PutMember(es: Entries, name: string, v: Value)
    requires BuiltMembers(es) && NulFree(name) && Built(v)
    ensures BuiltMembers(Put(es, Name(name), v))
  {
    hide Built, NulFree, KeyLess;
    if es.Cons? {
      PutMember(es.rest, name, v);
    }
  }

  // ----- the reader -----

  lemma ScalarBuilt(c: Config, t: Token, start: int, limit: int)
    requires ScalarOf(c, t).Good?
    ensures Built(Value(ScalarOf(c, t).data, start, limit))
  {
    NumberKinds(t.text);
    hide DecodeString, CStr, NumberOf;
  }

  lemma NumberKinds(text: string)
    ensures NumberOf(text).Signed? ==> NumberOf(text).i as int <= MAX_INT
    ensures NumberOf(text).Unsigned? ==> NumberOf(text).u as int > MAX_INT
  {
    hide Magnitude;
  }

  /** Whatever comes of a reading, the value is complete; only where no value is found is the old one kept. */
  lemma {:induction false} ValuesBuilt(c: Config, n: int, r: string, node: Value)
    ensures var o := ReadValue(c, n, r, node); o.ok || Built(node) ==> Built(o.node)
    decreases |r|, 1
  {
    hide Significant, ReadMembers, ReadArray, ReadValue, ScalarOf, Suffix;
    ValueUnfold(c, n, r, node);
    var t := Significant(c, r);
    if t.kind.ObjectBegin? {
      MembersBuilt(c, n, t.rest, Value(Obj(Nil), StartOf(n, t), 0), "");
    } else if t.kind.ArrayBegin? {
      ArrayBuilt(c, n, t.rest, Value(Arr(Nil), StartOf(n, t), 0));
    } else if ScalarOf(c, t).Good? {
      ScalarBuilt(c, t, StartOf(n, t), EndOf(n, t));
    }
  }

  lemma {:induction false} ArrayBuilt(c: Config, n: int, r: string, node: Value)
    requires node.data == Arr(Nil)
    ensures Built(ReadArray(c, n, r, node).node)
    decreases |r|, 4
  {
    hide ReadArray, ReadElements, SkipSpaces;
    ArrayUnfold(c, n, r, node);
    var s := SkipSpaces(r);
    if !(s != "" && s[0] == ']') {
      ElementsBuilt(c, n, s, node, 0);
    }
  }

  lemma {:induction false} ElementsBuilt(c: Config, n: int, r: string, node: Value, index: nat)
    requires node.data.Arr? && Dense(node.data.entries, 0) && Count(node.data.entries) == index
    ensures Built(ReadElements(c, n, r, node, index).node)
    decreases |r|, 3
  {
    hide ReadElements, ReadElement, ReadValue, ElementEnd, Suffix, Get, Put, Dense, Count;
    var es := node.data.entries;
    ElementsUnfold(c, n, r, node, index);
    ElementUnfold(c, n, r, node, index);
    var v := ReadValue(c, n, r, At(es, index));
    GetDense(es, 0, Idx(index));
    ValuesBuilt(c, n, r, At(es, index));
    PutDense(es, 0, v.node);
    ElementEndKeeps(c, n, r, v, node.(data := Arr(Put(es, Idx(index), v.node))));
    var s := ReadElement(c, n, r, node, index);
    if s.More? {
      ElementsBuilt(c, n, s.rest, s.node, index + 1);
    }
  }

  lemma ElementEndKeeps(c: Config, n: int, r: string, v: Outcome, node: Value)
    requires Suffix(v.rest, r) && |v.errors| == (if v.ok then 0 else 1) && node.data.Arr?
    ensures var s := ElementEnd(c, n, r, v, node);
            (s.Last? ==> s.o.node == node) && (s.More? ==> s.node == node)
  {
    hide ReadToken, SkipComments, Suffix, Recover;
  }

  lemma {:induction false} MembersBuilt(c: Config, n: int, r: string, node: Value, name: string)
    requires node.data.Obj? && Built(node)
    ensures Built(ReadMembers(c, n, r, node, name).node)
    decreases |r|, 0
  {
    hide ReadMembers, ReadMember, Suffix, SkipComments, NameOf, Fail, Built;
    MembersUnfold(c, n, r, node, name);
    var t := SkipComments(r);
    if !(t.kind.ObjectEnd? && name == "") && NameOf(c, t).Named? {
      var name' := NameOf(c, t).name;
      MemberBuilt(c, n, t.rest, node, name');
      var s := ReadMember(c, n, t.rest, node, name');
      if s.More? {
        Shrinks(s.rest, t, r);
        MembersBuilt(c, n, s.rest, s.node, name');
      }
    }
  }

  lemma Shrinks(rest: string, t: Token, r: string)
    requires Suffix(rest, t.rest) && |t.rest| < |r|
    ensures |rest| < |r|
  {
  }

  lemma {:induction false} MemberBuilt(c: Config, n: int, r: string, node: Value, name: string)
    requires node.data.Obj? && Built(node)
    ensures var s := ReadMember(c, n, r, node, name);
            (s.Last? ==> Built(s.o.node)) && (s.More? ==> Built(s.node))
    decreases |r|, 2
  {
    hide ReadMember, ReadToken, ReadValue, MemberEnd, Suffix, Get, Put, CStr, Fail, BuiltMembers, Sorted, Sort;
    var es, colon := node.data.entries, ReadToken(r);
    if !colon.kind.MemberSeparator? {
      NoColon(c, n, r, node, name);
    } else {
      var key := Name(CStr(name));
      MemberUnfold(c, n, r, node, name);
      var v := ReadValue(c, n, colon.rest, Get(es, key));
      GetMember(es, key);
      ValuesBuilt(c, n, colon.rest, Get(es, key));
      PutMember(es, CStr(name), v.node);
      PutSorted(es, key, v.node);
      Locality.EndKeeps(c, n, r, v, node.(data := Obj(Put(es, key, v.node))));
    }
  }

  // ----- what complete trees are like -----

  lemma {:induction false} BuiltWellFormed(v: Value)
    requires Built(v)
    ensures WellFormed(v)
    decreases v
  {
    match v.data
    case Arr(es) => DenseWellFormed(es, 0);
    case Obj(es) => MembersWellFormed(es);
    case _ =>
  }

  lemma {:induction false} DenseWellFormed(es: Entries, index: nat)
    requires Dense(es, index)
    ensures WellFormedOf(es) && Sorted(es) && Sort(es, true)
    decreases es
  {
    if es.Cons? {
      BuiltWellFormed(es.val);
      DenseWellFormed(es.rest, index + 1);
      DenseAbove(es.rest, index + 1, index);
    }
  }

  lemma {:induction false} DenseAbove(es: Entries, index: nat, low: nat)
    requires Dense(es, index) && low < index
    ensures Above(Idx(low), es)
  {
    if es.Cons? {
      DenseAbove(es.rest, index + 1, low);
    }
  }

  lemma {:induction false} MembersWellFormed(es: Entries)
    requires BuiltMembers(es)
    ensures WellFormedOf(es)
    decreases es
  {
    if es.Cons? {
      BuiltWellFormed(es.val);
      MembersWellFormed(es.rest);
    }
  }

  /** A complete tree is its own canonical form. */
  lemma {:induction false} BuiltCanonical(v: Value)
    requires Built(v)
    ensures Canon(v) == Strip(v)
    decreases v
  {
    match v.data
    case Arr(es) =>
      DenseSize(es, 0);
      DenseCanonical(es, es, 0);
    case Obj(es) => MembersCanonical(es);
    case _ =>
  }

  lemma {:induction false} DenseSize(es: Entries, index: nat)
    requires Dense(es, index)
    ensures Size(es) == if es.Nil? then 0 else index + Count(es)
  {
    if es.Cons? {
      DenseSize(es.rest, index + 1);
    }
  }

  lemma {:induction false} DenseStored(es: Entries, index: nat, i: nat)
    requires Dense(es, index) && index <= i < index + Count(es)
    ensures Find(es, Idx(i)).Some?
  {
    if i > index {
      DenseStored(es.rest, index + 1, i);
    }
  }

  /** `rest` is what is left of `es` from `index` on. */
  ghost predicate Left(es: Entries, rest: Entries, index: nat) {
    Size(es) == index + Count(rest) && forall i: nat :: i >= index ==> Find(es, Idx(i)) == Find(rest, Idx(i))
  }

  lemma {:induction false} DenseCanonical(es: Entries, rest: Entries, index: nat)
    requires Dense(rest, index) && Left(es, rest, index)
    ensures CanonItems(es, index) == StripOf(rest)
    decreases rest
  {
    hide Canon, Strip, Size, Built;
    if rest.Nil? {
      PastTheEnd(es, index);
    } else {
      CanonItemsStep(es, index);
      assert Find(es, Idx(index)) == Find(rest, Idx(index));
      BuiltCanonical(rest.val);
      DenseCanonical(es, rest.rest, index + 1);
    }
  }

  lemma {:induction false} MembersCanonical(es: Entries)
    requires BuiltMembers(es)
    ensures CanonMembers(es) == StripOf(es)
    decreases es
  {
    hide Canon, Strip;
    if es.Cons? {
      BuiltCanonical(es.val);
      MembersCanonical(es.rest);
    }
  }

  // ----- the results -----

  /**
   * Every document that is read at all, whoever wrote it, gives a canonical tree: arrays without
   * gaps, ordered objects, strings without NULs, numbers of the right kind.
   */
  lemma ParsedIsCanonical(c: Config, doc: string, root: Value)
    ensures var o := Parse(c, doc, root);
            o.ok ==> Built(o.node) && WellFormed(o.node) && Canon(o.node) == Strip(o.node)
  {
    hide ReadValue, Significant, Built, WellFormed, Canon, Strip;
    ValuesBuilt(c, |doc|, doc, root);
    if Parse(c, doc, root).ok {
      BuiltWellFormed(Parse(c, doc, root).node);
      BuiltCanonical(Parse(c, doc, root).node);
    }
  }

  /** The assertion at the end of `resize` holds whenever an array the reader built is cut short. */
  lemma BuiltArraysShrink(v: Value, newSize: nat)
    requires Built(v) && v.data.Arr? && 0 < newSize <= Size(v.data.entries)
    ensures Arrays.Array(v.data.entries) && Find(v.data.entries, Idx(newSize - 1)).Some?
  {
    DenseWellFormed(v.data.entries, 0);
    DenseSize(v.data.entries, 0);
    DenseStored(v.data.entries, 0, newSize - 1);
  }

  /** The document as `toStyledString` formats it. */
  function Formatted(c: Config, doc: string): string {
    StyledText(c.printDouble, Parse(c, doc, NULL_VALUE).node)
  }

  /**
   * Formatting a document loses nothing and is done once and for all: the formatted document is read
   * as the same tree, and formatting it again does not change a character.
   */
  lemma FormattingIsIdempotent(c: Config, doc: string)
    requires !c.strictRoot
    ensures var o := Parse(c, doc, NULL_VALUE);
            o.ok && RealFree(o.node) ==>
              Parse(c, Formatted(c, doc), NULL_VALUE).ok &&
              Strip(Parse(c, Formatted(c, doc), NULL_VALUE).node) == Strip(o.node) &&
              Formatted(c, Formatted(c, doc)) == Formatted(c, doc)
  {
    hide Parse, Styled, RealFree, Built, WellFormed, Canon, Strip;
    var v := Parse(c, doc, NULL_VALUE).node;
    if Parse(c, doc, NULL_VALUE).ok && RealFree(v) {
      ParsedIsCanonical(c, doc, NULL_VALUE);
      StyledRoundTrip(c, c.printDouble, v, NULL_VALUE);
      Wire.StyledStrip(c.printDouble, "", 0, Parse(c, Formatted(c, doc), NULL_VALUE).node, v);
    }
  }
}
