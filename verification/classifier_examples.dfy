/** Worked examples of the status classifier of lib/logistics.ts, each
    derived from the substring rules. Every example takes the status text as
    a parameter fixed by its precondition rather than writing the literal in
    its conclusion: the solver then reasons about the text through the one
    equation, which keeps these proofs about long literals stable. */
module ClassifierExamples {
  import opened Strings
  import opened Logistics

  /** A delivered term decides the result even when the text also reads as a
      failure: "undelivered" contains "delivered". */
  lemma UndeliveredIsDelivered(s: string)
    requires s == "UNDELIVERED"
    ensures Classify(s) == Delivered
  {
    var l := "undelivered";
    assert Lower(s) == l;
    assert l[2] == 'd' && l[3] == 'e' && l[4] == 'l' && l[5] == 'i' && l[6] == 'v'
        && l[7] == 'e' && l[8] == 'r' && l[9] == 'e' && l[10] == 'd';
    assert OccursAt(l, "delivered", 2);
  }

  lemma TransitFailedLowered(s: string)
    requires s == "In transit, FAILED"
    ensures Lower(s) == "in transit, failed"
  {
  }

  lemma TransitFailedFacts(l: string)
    requires l == "in transit, failed"
    ensures forall i :: !OccursAt(l, "delivered", i)
    ensures forall i :: !OccursAt(l, "签收", i)
    ensures OccursAt(l, "fail", 12)
  {
    NoOccurrenceByFirstChar(l, "delivered");
    NoOccurrenceWithout(l, "签收");
    assert l[12] == 'f' && l[13] == 'a' && l[14] == 'i' && l[15] == 'l';
  }

  /** A failure term wins over a transit term. */
  lemma FailureBeatsTransit(s: string)
    requires s == "In transit, FAILED"
    ensures Classify(s) == DeliveryFailed
  {
    TransitFailedLowered(s);
    TransitFailedFacts(Lower(s));
  }

  lemma SignedDeliveredFacts(l: string)
    requires l == "signed, delivered by courier"
    ensures OccursAt(l, "delivered", 8)
  {
    var w := l[8..17];
    assert w[0] == 'd' && w[1] == 'e' && w[2] == 'l';
    assert w[3] == 'i' && w[4] == 'v' && w[5] == 'e';
    assert w[6] == 'r' && w[7] == 'e' && w[8] == 'd';
    assert w == "delivered";
  }

  /** "Signed, delivered by courier" is Delivered. */
  lemma SignedDeliveredExample(s: string)
    requires s == "Signed, delivered by courier"
    ensures Classify(s) == Delivered
  {
    assert Lower(s) == "signed, delivered by courier";
    SignedDeliveredFacts(Lower(s));
  }

  lemma ExceptionNotedNotDelivered(l: string)
    requires l == "in transit to destination, exception noted"
    ensures forall i :: !OccursAt(l, "delivered", i)
    ensures forall i :: !OccursAt(l, "签收", i)
  {
    ExceptionNotedHasNoV(l);
    NoOccurrenceMissingChar(l, "delivered", 4);
    NoOccurrenceWithout(l, "签收");
  }

  lemma ExceptionNotedHasNoV(l: string)
    requires l == "in transit to destination, exception noted"
    ensures 'v' !in l
  {
  }

  lemma ExceptionNotedNotFail(l: string)
    requires l == "in transit to destination, exception noted"
    ensures forall i :: !OccursAt(l, "fail", i)
  {
    assert 'f' !in l;
    NoOccurrenceWithout(l, "fail");
  }

  lemma ExceptionNotedNoCjkFailure(l: string)
    requires l == "in transit to destination, exception noted"
    ensures forall i :: !OccursAt(l, "异常", i)
    ensures forall i :: !OccursAt(l, "拒收", i)
  {
    NoOccurrenceWithout(l, "异常");
    NoOccurrenceWithout(l, "拒收");
  }

  lemma ExceptionNotedInTransit(l: string)
    requires l == "in transit to destination, exception noted"
    ensures OccursAt(l, "transit", 3)
  {
    assert l[3] == 't' && l[4] == 'r' && l[5] == 'a' && l[6] == 'n' && l[7] == 's' && l[8] == 'i' && l[9] == 't';
  }

  /** Only the listed terms count: "exception" is not a failure term (the
      failure vocabulary is "fail" and two Chinese terms), so a transit status
      that mentions an exception in English is InTransit. */
  lemma EnglishExceptionIsInTransit(l: string)
    requires l == "in transit to destination, exception noted"
    ensures ClassifyLowered(l) == InTransit
  {
    ExceptionNotedNotDelivered(l);
    ExceptionNotedNotFail(l);
    ExceptionNotedNoCjkFailure(l);
    ExceptionNotedInTransit(l);
  }

  /** A status with no vocabulary term is Unknown. */
  lemma UnrecognisedIsUnknown(l: string)
    requires l == "unrecognized code 7"
    ensures ClassifyLowered(l) == Unknown
  {
    NoOccurrenceByFirstChar(l, "delivered");
    NoOccurrenceByFirstChar(l, "签收");
    NoOccurrenceByFirstChar(l, "fail");
    NoOccurrenceByFirstChar(l, "异常");
    NoOccurrenceByFirstChar(l, "拒收");
    NoOccurrenceByFirstChar(l, "transit");
    NoOccurrenceByFirstChar(l, "运输");
    NoOccurrenceByFirstChar(l, "派送");
  }

  /** The empty status is Unknown. */
  lemma EmptyIsUnknown()
    ensures Classify("") == Unknown
  {
  }
}
