/** Canonical trees: they stand for the same data, print alike and are fixed points. */
module Canonical {
  import opened Text
  import opened Values
  import opened Layout
  import opened Streams
  import opened RoundTrip

  lemma {:induction false} CanonItemsSize(es: Entries, from: nat)
    requires from < Size(es)
    ensures Size(CanonItems(es, from)) == Size(es)
    decreases Size(es) - from
  {
    CanonItemsStep(es, from);
    hide Canon, Get;
    if from + 1 < Size(es) {
      CanonItemsSize(es, from + 1);
      CanonItemsStep(es, from + 1);
    } else {
      PastTheEnd(es, from + 1);
    }
  }

  /** Every index below the size is stored, with the canonical element. */
  lemma {:induction false} CanonItemsFind(es: Entries, from: nat, i: nat)
    ensures Find(CanonItems(es, from), Idx(i)) == if from <= i < Size(es) then Some(Canon(At(es, i))) else None
    decreases Size(es) - from
  {
    hide Canon, Get, Size;
    if from < Size(es) {
      CanonItemsFind(es, from + 1, i);
    }
  }

  /** A canonical array is the array with its gaps filled by nulls and its elements made canonical. */
  lemma CanonFillsGaps(es: Entries, i: nat)
    ensures Size(CanonItems(es, 0)) == Size(es)
    ensures i < Size(es) ==> At(CanonItems(es, 0), i) == Canon(At(es, i)) && Find(CanonItems(es, 0), Idx(i)).Some?
  {
    CanonItemsFind(es, 0, i);
    if Size(es) == 0 {
      NoItems(es);
    } else {
      CanonItemsSize(es, 0);
    }
  }

  lemma {:induction false} CanonItemsAbove(es: Entries, from: nat, low: nat)
    requires low < from
    ensures Above(Idx(low), CanonItems(es, from))
    decreases Size(es) - from
  {
    hide Canon, Get, Size;
    if from < Size(es) {
      CanonItemsAbove(es, from + 1, low);
    }
  }

  lemma {:induction false} CanonMembersAbove(es: Entries, low: Key)
    requires Above(low, es)
    ensures Above(low, CanonMembers(es))
  {
    hide Canon;
    if es.Cons? {
      CanonMembersAbove(es.rest, low);
    }
  }

  lemma {:induction false} CanonPrintable(v: Value)
    requires Printable(v)
    ensures Printable(Canon(v))
    decreases Weight(v), 0, 0
  {
    if v.data.Arr? {
      CanonItemsPrintable(v.data.entries, 0);
    } else if v.data.Obj? {
      CanonMembersPrintable(v.data.entries);
    }
  }

  lemma {:induction false} CanonItemsPrintable(es: Entries, from: nat)
    requires PrintableOf(es)
    ensures PrintableOf(CanonItems(es, from)) && Sorted(CanonItems(es, from)) && Sort(CanonItems(es, from), true)
    decreases WeightOf(es), 1, Size(es) - from
  {
    hide Canon, Get, Size;
    if from < Size(es) {
      GetWeight(es, Idx(from));
      GetPrintable(es, Idx(from));
      CanonPrintable(At(es, from));
      CanonItemsPrintable(es, from + 1);
      CanonItemsAbove(es, from + 1, from);
    }
  }

  lemma {:induction false} CanonMembersPrintable(es: Entries)
    requires PrintableOf(es) && Sorted(es) && Sort(es, false)
    ensures PrintableOf(CanonMembers(es)) && Sorted(CanonMembers(es)) && Sort(CanonMembers(es), false)
    decreases WeightOf(es), 1, 0
  {
    hide Canon;
    if es.Cons? {
      CanonPrintable(es.val);
      CanonMembersPrintable(es.rest);
      CanonMembersAbove(es.rest, es.key);
    }
  }

  // ----- printing does not see the difference -----

  lemma FilledCanon(v: Value)
    ensures Filled(Canon(v)) == Filled(v)
  {
    if v.data.Arr? {
      CanonFillsGaps(v.data.entries, 0);
    }
    hide Size;
  }

  lemma FlatCanon(p: Printer, v: Value)
    requires !Filled(v)
    ensures !Filled(Canon(v)) && Flat(p, Canon(v)) == Flat(p, v)
  {
    FilledCanon(v);
    hide Size, CanonItems, CanonMembers;
  }

  lemma AllFlatCanon(es: Entries)
    ensures AllFlat(CanonItems(es, 0)) == AllFlat(es)
  {
    hide Size, CanonItems, Canon, Get, Filled;
    CanonFillsGaps(es, 0);
    forall i | 0 <= i < Size(es)
      ensures Filled(At(CanonItems(es, 0), i)) == Filled(At(es, i))
    {
      CanonFillsGaps(es, i);
      FilledCanon(At(es, i));
    }
  }

  lemma {:induction false} FlatItemsCanon(p: Printer, es: Entries, index: nat)
    requires AllFlat(es) && index <= Size(es)
    ensures AllFlat(CanonItems(es, 0)) && Size(CanonItems(es, 0)) == Size(es)
    ensures FlatItems(p, CanonItems(es, 0), index) == FlatItems(p, es, index)
    decreases Size(es) - index
  {
    AllFlatCanon(es);
    CanonFillsGaps(es, index);
    hide Size, CanonItems, Canon, Get, Flat, Filled;
    if index < Size(es) {
      FlatCanon(p, At(es, index));
      FlatItemsCanon(p, es, index + 1);
      FlatItemsStep(p, es, index);
      FlatItemsStep(p, CanonItems(es, 0), index);
    }
  }

  lemma MultilineCanon(p: Printer, es: Entries)
    ensures Multiline(p, CanonItems(es, 0)) == Multiline(p, es)
    ensures !Multiline(p, es) ==>
              AllFlat(es) && AllFlat(CanonItems(es, 0)) && FlatItems(p, CanonItems(es, 0), 0) == FlatItems(p, es, 0)
  {
    hide CanonItems, Size, FlatItems, TotalLength, AllFlat;
    AllFlatCanon(es);
    CanonFillsGaps(es, 0);
    if AllFlat(es) {
      FlatItemsCanon(p, es, 0);
    }
  }

  /** Printing a tree and printing its canonical form give the same text. */
  lemma {:induction false} StyledCanon(p: Printer, doc: string, indent: nat, v: Value)
    ensures Styled(p, doc, indent, Canon(v)) == Styled(p, doc, indent, v)
    decreases Weight(v), 0, 0
  {
    hide Styled, StyledItems, StyledMembers, Canon, CanonItems, CanonMembers, Size, Multiline, PutIndented, Join,
         FlatItems, Flat, AllFlat;
    FilledCanon(v);
    CanonShape(v);
    if !Filled(v) {
      FlatCanon(p, v);
      StyledFlat(p, doc, indent, v);
      StyledFlat(p, doc, indent, Canon(v));
    } else if v.data.Arr? {
      var es := v.data.entries;
      CanonFillsGaps(es, 0);
      MultilineCanon(p, es);
      StyledArray(p, doc, indent, v);
      StyledArray(p, doc, indent, Canon(v));
      if Multiline(p, es) {
        StyledItemsCanon(p, PutIndented(doc, indent, "["), indent + INDENT_SIZE, es, 0);
      }
    } else {
      var es := v.data.entries;
      CanonMembersStep(es);
      StyledObject(p, doc, indent, v);
      StyledObject(p, doc, indent, Canon(v));
      StyledMembersCanon(p, PutIndented(doc, indent, "{"), indent + INDENT_SIZE, es);
    }
  }

  lemma {:induction false} StyledItemsCanon(p: Printer, doc: string, indent: nat, es: Entries, index: nat)
    requires index < Size(es) == Size(CanonItems(es, 0))
    ensures StyledItems(p, doc, indent, CanonItems(es, 0), index) == StyledItems(p, doc, indent, es, index)
    decreases WeightOf(es), 1, Size(es) - index
  {
    hide Styled, StyledItems, Canon, CanonItems, Size, WriteIndent, Get;
    CanonFillsGaps(es, index);
    GetWeight(es, Idx(index));
    StyledItemsStep(p, doc, indent, es, index);
    StyledItemsStep(p, doc, indent, CanonItems(es, 0), index);
    var v := At(es, index);
    StyledCanon(p, WriteIndent(doc, indent), indent, v);
    if index + 1 < Size(es) {
      StyledItemsCanon(p, Styled(p, WriteIndent(doc, indent), indent, v) + ",", indent, es, index + 1);
    }
  }

  lemma {:induction false} StyledMembersCanon(p: Printer, doc: string, indent: nat, es: Entries)
    requires es.Cons? && CanonMembers(es).Cons?
    ensures StyledMembers(p, doc, indent, CanonMembers(es)) == StyledMembers(p, doc, indent, es)
    decreases WeightOf(es), 1, 0
  {
    hide Styled, StyledMembers, Canon, PutIndented, CanonMembers;
    CanonMembersStep(es);
    StyledMembersStep(p, doc, indent, es);
    StyledMembersStep(p, doc, indent, CanonMembers(es));
    var start := PutIndented(doc, indent, Strings.Quote(NameText(es.key))) + " : ";
    StyledCanon(p, start, indent, es.val);
    if es.rest.Cons? {
      CanonMembersStep(es.rest);
      StyledMembersCanon(p, Styled(p, start, indent, es.val) + ",", indent, es.rest);
    } else {
      NoMembers();
    }
  }

  // ----- canonical trees are fixed points -----

  lemma {:induction false} CanonTwice(v: Value)
    ensures Canon(Canon(v)) == Canon(v)
    decreases Weight(v), 0, 0
  {
    hide CanonItems, CanonMembers;
    if v.data.Arr? {
      CanonItemsTwice(v.data.entries, 0);
    } else if v.data.Obj? {
      CanonMembersTwice(v.data.entries);
    }
  }

  lemma {:induction false} CanonItemsTwice(es: Entries, index: nat)
    ensures CanonItems(CanonItems(es, 0), index) == CanonItems(es, index)
    decreases WeightOf(es), 1, Size(es) - index
  {
    hide Canon, Get, Size;
    CanonFillsGaps(es, index);
    if index < Size(es) {
      GetWeight(es, Idx(index));
      CanonTwice(At(es, index));
      CanonItemsTwice(es, index + 1);
    }
  }

  lemma {:induction false} CanonMembersTwice(es: Entries)
    ensures CanonMembers(CanonMembers(es)) == CanonMembers(es)
    decreases WeightOf(es), 1, 0
  {
    hide Canon;
    if es.Cons? {
      CanonTwice(es.val);
      CanonMembersTwice(es.rest);
    }
  }

  /** `toStyledString` of a tree read back is the text it was read from. */
  lemma StyledTextStable(p: Printer, v: Value)
    requires Printable(v)
    ensures StyledText(p, Canon(v)) == StyledText(p, v) && Printable(Canon(v)) && Canon(Canon(v)) == Canon(v)
  {
    hide Styled, Printable, Canon;
    StyledCanon(p, "", 0, v);
    CanonPrintable(v);
    CanonTwice(v);
  }
}
