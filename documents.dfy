/** Document completeness: `validateDocuments` counts an order's documents
    into eight buckets and ANDs a list of `{type, minCount, condition}` rules;
    `isAllDocsValid` and `isCorpDocsValid` are its two checklists. */
module DocValidation {
  import opened Wrappers

  /** An index into the eight-slot `counts` array. */
  type Slot = n: nat | n < 8

  /** The members of `DOCUMENT_TYPES` that the checks read. The file that
      defines them is not part of this model, so they are a parameter whose
      members are only known to be slots. */
  datatype DocumentTypes = DocumentTypes(
    invoice: Slot, serialNumber: Slot, devicePhoto: Slot, selfie: Slot,
    defectivePart: Slot, outerSerialNumber: Slot, default: Slot)

  /** A document as the checks see it: `doc.type?.value`, None when the type
      or its value is null or undefined. */
  datatype Document = Document(typeValue: Option<int>)

  /** `{type, minCount, condition}`; None is a rule written without `condition`. */
  datatype Rule = Rule(docType: Slot, minCount: int, condition: Option<bool>)

  /** The bucket a document increments: its type's code, or the default
      bucket when it has no type value. */
  function Bucket(doc: Document, types: DocumentTypes): int {
    doc.typeValue.GetOr(types.default)
  }

  /** How many documents fall into `slot`. */
  function Count(docs: seq<Document>, types: DocumentTypes, slot: Slot): (n: nat)
    ensures n <= |docs|
  {
    if docs == [] then 0
    else Count(docs[..|docs| - 1], types, slot) + (if Bucket(docs[|docs| - 1], types) == slot then 1 else 0)
  }

  /** A rule is enforced only when its condition is present and truthy, and
      then its bucket must hold at least `minCount` documents. */
  predicate RuleHolds(rule: Rule, docs: seq<Document>, types: DocumentTypes) {
    rule.condition != Some(true) || Count(docs, types, rule.docType) >= rule.minCount
  }

  /** What `validateDocuments(docs, rules)` answers: a present, non-empty list
      for which every rule holds. */
  predicate Satisfies(docs: Option<seq<Document>>, rules: seq<Rule>, types: DocumentTypes) {
    && docs.Some? && |docs.value| > 0
    && forall i :: 0 <= i < |rules| ==> RuleHolds(rules[i], docs.value, types)
  }

  /** The `every` over the rules, on the filled counts. */
  predicate RulesHold(rules: seq<Rule>, counts: seq<int>)
    requires |counts| == 8
  {
    forall i :: 0 <= i < |rules| ==>
      rules[i].condition != Some(true) || counts[rules[i].docType] >= rules[i].minCount
  }

  method ValidateDocuments(docs: Option<seq<Document>>, rules: seq<Rule>, types: DocumentTypes)
    returns (ok: bool)
    ensures ok == Satisfies(docs, rules, types)
  {
    if docs.None? || |docs.value| == 0 {
      return false;
    }
    var ds := docs.value;
    var counts := new int[8](_ => 0);
    for i := 0 to |ds|
      invariant forall k: Slot :: counts[k] == Count(ds[..i], types, k)
    {
      var b := Bucket(ds[i], types);
      if 0 <= b < 8 {
        counts[b] := counts[b] + 1;
      }
      assert ds[..i + 1][..i] == ds[..i];
    }
    assert ds[..|ds|] == ds;
    ok := RulesHold(rules, counts[..]);
  }

  /** Appending a document only raises counts. */
  lemma CountGrows(docs: seq<Document>, doc: Document, types: DocumentTypes, slot: Slot)
    ensures Count(docs + [doc], types, slot) == Count(docs, types, slot) + (if Bucket(doc, types) == slot then 1 else 0)
  {
    assert (docs + [doc])[..|docs|] == docs;
  }

  /** Appending a document never turns a passing check into a failing one. */
  lemma Monotone(docs: seq<Document>, doc: Document, rules: seq<Rule>, types: DocumentTypes)
    requires Satisfies(Some(docs), rules, types)
    ensures Satisfies(Some(docs + [doc]), rules, types)
  {
    forall i | 0 <= i < |rules| ensures RuleHolds(rules[i], docs + [doc], types) {
      CountGrows(docs, doc, types, rules[i].docType);
    }
  }

  /** The counts of the first `upto` slots added up. */
  function CountsBelow(docs: seq<Document>, types: DocumentTypes, upto: nat): nat
    requires upto <= 8
  {
    if upto == 0 then 0 else CountsBelow(docs, types, upto - 1) + Count(docs, types, upto - 1)
  }

  lemma {:induction false} CountsBelowGrow(docs: seq<Document>, doc: Document, types: DocumentTypes, upto: nat)
    requires upto <= 8
    ensures CountsBelow(docs + [doc], types, upto)
         == CountsBelow(docs, types, upto) + (if 0 <= Bucket(doc, types) < upto then 1 else 0)
  {
    if upto > 0 {
      CountsBelowGrow(docs, doc, types, upto - 1);
      CountGrows(docs, doc, types, upto - 1);
    }
  }

  /** Each document lands in exactly one bucket: when every bucket index is a
      slot, the eight counts add up to the number of documents. */
  lemma {:induction false} CountsAddUp(docs: seq<Document>, types: DocumentTypes)
    requires forall i :: 0 <= i < |docs| ==> 0 <= Bucket(docs[i], types) < 8
    ensures CountsBelow(docs, types, 8) == |docs|
  {
    if docs == [] {
      assert CountsBelow(docs, types, 8) == 0 by {
        forall u: nat | u <= 8 ensures CountsBelow(docs, types, u) == 0 {
          ZeroCounts(types, u);
        }
      }
    } else {
      var init := docs[..|docs| - 1];
      CountsAddUp(init, types);
      assert init + [docs[|docs| - 1]] == docs;
      CountsBelowGrow(init, docs[|docs| - 1], types, 8);
    }
  }

  lemma {:induction false} ZeroCounts(types: DocumentTypes, upto: nat)
    requires upto <= 8
    ensures CountsBelow([], types, upto) == 0
  {
    if upto > 0 {
      ZeroCounts(types, upto - 1);
    }
  }

  /** The checklist of `isAllDocsValid`. */
  function AllDocsRules(types: DocumentTypes, isPrimeBookOrder: bool, isPartRequest: bool, partQuantity: int): seq<Rule> {
    [ Rule(types.invoice, 1, None),
      Rule(types.serialNumber, 1, None),
      Rule(types.devicePhoto, 1, None),
      Rule(types.selfie, 1, Some(isPrimeBookOrder)),
      Rule(types.defectivePart, partQuantity, Some(isPartRequest)) ]
  }

  /** The checklist of `isCorpDocsValid`. */
  function CorpDocsRules(types: DocumentTypes, isAc: bool, isPartRequest: bool, partQuantity: int): seq<Rule> {
    [ Rule(types.serialNumber, 1, None),
      Rule(types.devicePhoto, 1, None),
      Rule(types.outerSerialNumber, 1, Some(isAc)),
      Rule(types.devicePhoto, 1, Some(isAc)),
      Rule(types.defectivePart, partQuantity, Some(isPartRequest)) ]
  }

  predicate NonEmpty(docs: Option<seq<Document>>) {
    docs.Some? && |docs.value| > 0
  }

  /** `isAllDocsValid`: a selfie when the order is a prime-book order, and
      `partQuantity` defective-part documents when a part was requested. The
      invoice, serial-number and device-photo rules carry no condition and so
      never fail. */
  method IsAllDocsValid(docs: Option<seq<Document>>, types: DocumentTypes,
                        isPrimeBookOrder: bool, isPartRequest: bool, partQuantity: int)
    returns (ok: bool)
    ensures ok <==> (NonEmpty(docs)
                     && (isPrimeBookOrder ==> Count(docs.value, types, types.selfie) >= 1)
                     && (isPartRequest ==> Count(docs.value, types, types.defectivePart) >= partQuantity))
  {
    var rules := AllDocsRules(types, isPrimeBookOrder, isPartRequest, partQuantity);
    ok := ValidateDocuments(docs, rules, types);
    if ok {
      assert RuleHolds(rules[3], docs.value, types) && RuleHolds(rules[4], docs.value, types);
    }
  }

  /** `isCorpDocsValid`: for an air conditioner an outer serial number (and a
      device photo, which the unconditional rule never demands), and
      `partQuantity` defective-part documents when a part was requested. */
  method IsCorpDocsValid(docs: Option<seq<Document>>, types: DocumentTypes,
                         isAc: bool, isPartRequest: bool, partQuantity: int)
    returns (ok: bool)
    ensures ok <==> (NonEmpty(docs)
                     && (isAc ==> Count(docs.value, types, types.outerSerialNumber) >= 1
                                  && Count(docs.value, types, types.devicePhoto) >= 1)
                     && (isPartRequest ==> Count(docs.value, types, types.defectivePart) >= partQuantity))
  {
    var rules := CorpDocsRules(types, isAc, isPartRequest, partQuantity);
    ok := ValidateDocuments(docs, rules, types);
    if ok {
      assert RuleHolds(rules[2], docs.value, types) && RuleHolds(rules[3], docs.value, types)
        && RuleHolds(rules[4], docs.value, types);
    }
  }

  /** With every flag off, both checklists only ask for a non-empty list. */
  lemma FlagsOff(docs: Option<seq<Document>>, types: DocumentTypes, partQuantity: int)
    ensures Satisfies(docs, AllDocsRules(types, false, false, partQuantity), types) <==> NonEmpty(docs)
    ensures Satisfies(docs, CorpDocsRules(types, false, false, partQuantity), types) <==> NonEmpty(docs)
  {
  }

  /** A single device photo passes the standard checklist, and so does the
      same list without any invoice: the rules that name the invoice, serial
      number and device photo are unconditional and therefore never enforced. */
  lemma InvoiceNotEnforced(types: DocumentTypes)
    requires types.invoice != types.devicePhoto
    ensures Satisfies(Some([Document(Some(types.devicePhoto as int))]), AllDocsRules(types, false, false, 1), types)
    ensures Count([Document(Some(types.devicePhoto as int))], types, types.invoice) == 0
  {
    var docs := [Document(Some(types.devicePhoto as int))];
    assert docs[..0] == [];
  }

  /** A part request is enforced: without a defective-part document the
      standard checklist fails whenever at least one is required. */
  lemma PartRequestEnforced(docs: seq<Document>, types: DocumentTypes, isPrimeBookOrder: bool, partQuantity: int)
    requires partQuantity >= 1 && Count(docs, types, types.defectivePart) == 0
    ensures !Satisfies(Some(docs), AllDocsRules(types, isPrimeBookOrder, true, partQuantity), types)
  {
    assert !RuleHolds(AllDocsRules(types, isPrimeBookOrder, true, partQuantity)[4], docs, types);
  }
}
