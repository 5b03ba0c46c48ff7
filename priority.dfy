/**
 * The internal weighting of policy results: the Priority enumeration,
 * its lowercase labels, its JSON form and its derivation from a severity.
 */
module Priorities {
  import opened Bytes
  import opened Wrappers

  /** Go's `type Priority int`: every int is a Priority, six of them are named. */
  newtype Priority = int

  // Declared with iota, in this order: Error sits above Critical.
  const DefaultPriority: Priority := 0
  const DebugPriority: Priority := 1
  const InfoPriority: Priority := 2
  const WarningPriority: Priority := 3
  const CriticalPriority: Priority := 4
  const ErrorPriority: Priority := 5

  const DefaultString: Bytes := []
  const DebugString: Bytes := Ascii("debug")
  const InfoString: Bytes := Ascii("info")
  const WarningString: Bytes := Ascii("warning")
  const ErrorString: Bytes := Ascii("error")
  const CriticalString: Bytes := Ascii("critical")

  /** Go's `type PolicySeverity string`, with its five documented values. */
  type PolicySeverity = Bytes

  const SeverityCritical: PolicySeverity := Ascii("critical")
  const SeverityHigh: PolicySeverity := Ascii("high")
  const SeverityMedium: PolicySeverity := Ascii("medium")
  const SeverityLow: PolicySeverity := Ascii("low")
  const SeverityInfo: PolicySeverity := Ascii("info")

  /** The five non-empty priority labels. */
  const Labels: set<Bytes> := {DebugString, InfoString, WarningString, ErrorString, CriticalString}

  /** The five documented severities. */
  const Severities: set<PolicySeverity> :=
    {SeverityCritical, SeverityHigh, SeverityMedium, SeverityLow, SeverityInfo}

  /** One of the six declared constants. */
  predicate IsDeclared(p: Priority) {
    DefaultPriority <= p <= ErrorPriority
  }

  /** One of the five declared constants that have a label. */
  predicate IsNamed(p: Priority) {
    DebugPriority <= p <= ErrorPriority
  }

  /** Priority.String: the lowercase label, or "" for Default and for every undeclared int. */
  function String(p: Priority): (s: Bytes)
    ensures s == [] <==> !IsNamed(p)
    ensures IsNamed(p) ==> s in Labels
  {
    if p == DebugPriority then DebugString
    else if p == InfoPriority then InfoString
    else if p == WarningPriority then WarningString
    else if p == ErrorPriority then ErrorString
    else if p == CriticalPriority then CriticalString
    else DefaultString
  }

  /** NewPriority: the priority a label names; every other string gives Default, never an error. */
  function NewPriority(s: Bytes): (p: Priority)
    ensures IsDeclared(p)
    ensures p == DefaultPriority <==> s !in Labels
  {
    if s == DebugString then DebugPriority
    else if s == InfoString then InfoPriority
    else if s == WarningString then WarningPriority
    else if s == ErrorString then ErrorPriority
    else if s == CriticalString then CriticalPriority
    else DefaultPriority
  }

  /** PriorityFromSeverity: the fixed table from severity to priority; never Default. */
  function PriorityFromSeverity(s: PolicySeverity): (p: Priority)
    ensures IsNamed(p)
    ensures p == DebugPriority <==> s !in Severities
  {
    if s == SeverityCritical then CriticalPriority
    else if s == SeverityHigh then ErrorPriority
    else if s == SeverityMedium then WarningPriority
    else if s == SeverityInfo then InfoPriority
    else if s == SeverityLow then InfoPriority
    else DebugPriority
  }

  /** The ASCII double quote. */
  const Quote: byte := 34

  /** Priority.MarshalJSON: the label between double quotes, and a nil error. */
  function MarshalJSON(p: Priority): (r: (Bytes, Option<Bytes>))
    ensures r.1 == None
    ensures IsPlainJSONString(r.0) && Unquote(r.0) == String(p)
  {
    LabelsAreLetters(String(p));
    ([Quote] + String(p) + [Quote], None)
  }

  /**
   * A JSON string literal that needs no escapes: opening and closing quote,
   * and between them no quote, no backslash and no control character.
   */
  predicate IsPlainJSONString(b: Bytes) {
    |b| >= 2 && b[0] == Quote && b[|b| - 1] == Quote &&
    forall i :: 0 < i < |b| - 1 ==> b[i] != Quote && b[i] != 92 && b[i] >= 32
  }

  /** The text a plain JSON string literal denotes. */
  function Unquote(b: Bytes): Bytes
    requires |b| >= 2
  {
    b[1..|b| - 1]
  }

  /** The labels, and the severities, are pairwise distinct strings. */
  lemma LabelsDistinct()
    ensures |Labels| == 5
    ensures |Severities| == 5
  {
    assert DebugString[0] != ErrorString[0];
    assert SeverityHigh[0] != SeverityInfo[0];
  }

  /** Every label is lowercase letters only, so it needs no JSON escaping. */
  lemma {:induction false} LabelsAreLetters(s: Bytes)
    requires s in Labels + {DefaultString}
    ensures forall i :: 0 <= i < |s| ==> 97 <= s[i] <= 122
  {
  }

  /** The label of each declared priority reads back as that priority. */
  lemma NewPriorityOfString(p: Priority)
    requires IsDeclared(p)
    ensures NewPriority(String(p)) == p
  {
    LabelsDistinct();
  }

  /** Reading a string and rendering it again keeps exactly the five labels and maps the rest to "". */
  lemma StringOfNewPriority(s: Bytes)
    ensures String(NewPriority(s)) == if s in Labels then s else DefaultString
  {
  }

  /** Distinct named priorities have distinct labels. */
  lemma StringInjective(p: Priority, q: Priority)
    requires IsNamed(p) && IsNamed(q) && String(p) == String(q)
    ensures p == q
  {
    NewPriorityOfString(p);
    NewPriorityOfString(q);
  }

  /** The severity table, row by row. */
  lemma SeverityTable()
    ensures PriorityFromSeverity(SeverityCritical) == CriticalPriority
    ensures PriorityFromSeverity(SeverityHigh) == ErrorPriority
    ensures PriorityFromSeverity(SeverityMedium) == WarningPriority
    ensures PriorityFromSeverity(SeverityLow) == InfoPriority
    ensures PriorityFromSeverity(SeverityInfo) == InfoPriority
    ensures PriorityFromSeverity([]) == DebugPriority
  {
    LabelsDistinct();
  }

  /** The declaration order makes "high" outrank "critical". */
  lemma HighOutranksCritical()
    ensures PriorityFromSeverity(SeverityHigh) > PriorityFromSeverity(SeverityCritical)
  {
  }

  /**
   * MarshalJSON never fails and renders a JSON string whose text is the
   * label, so NewPriority recovers each declared priority from it.
   */
  lemma MarshalJSONIsQuotedLabel(p: Priority)
    ensures MarshalJSON(p).1 == None
    ensures IsPlainJSONString(MarshalJSON(p).0)
    ensures Unquote(MarshalJSON(p).0) == String(p)
    ensures IsDeclared(p) ==> NewPriority(Unquote(MarshalJSON(p).0)) == p
  {
    if IsDeclared(p) {
      NewPriorityOfString(p);
    }
  }
}
