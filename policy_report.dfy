/**
 * The policy result record of the v1alpha2 PolicyReport API: its primary
 * resource accessors and its memoised identity (GetID).
 */
module PolicyReports {
  import opened Bytes
  import opened Wrappers
  import Priorities
  import Fnv1a
  import Decimal

  /** The Properties key under which a collector may supply its own identity. */
  const ResultIDKey: Bytes := Ascii("resultID")

  /** Go's `type PolicyResult string`. */
  type PolicyResult = Bytes

  /** corev1.ObjectReference, reduced to the two fields the identity reads. */
  datatype ObjectReference = ObjectReference(Name: Bytes, UID: Bytes)

  /** metav1.Timestamp: carried, never inspected. */
  datatype Timestamp = Timestamp(Seconds: int, Nanos: int)

  /**
   * The bytes the identity hash absorbs, in order: the primary resource's
   * Name and UID (only when there is one), then Policy, Rule, Result,
   * Category and Message, with nothing between them.
   */
  function IdentityInput(res: Option<ObjectReference>, policy: Bytes, rule: Bytes,
                         result: PolicyResult, category: Bytes, message: Bytes): Bytes
  {
    (if res.Some? then res.value.Name + res.value.UID else []) +
    policy + rule + result + category + message
  }

  /**
   * The hash as GetID threads it, one AddString64 per field; it is
   * FNV-1a 64 of the concatenated fields.
   */
  function FieldsHash(res: Option<ObjectReference>, policy: Bytes, rule: Bytes,
                      result: PolicyResult, category: Bytes, message: Bytes): (h: bv64)
    ensures h == Fnv1a.Hash64(IdentityInput(res, policy, rule, result, category, message))
  {
    var head := if res.Some? then res.value.Name + res.value.UID else [];
    ConcatenatedHash(Fnv1a.Init64, head, policy, rule, result, category, message);
    var first := if res.Some? then res.value else ObjectReference([], []);
    Fnv1a.FoldAppend(Fnv1a.Init64, first.Name, first.UID);
    var h1 := if res.Some? then Fnv1a.Fold(Fnv1a.Fold(Fnv1a.Init64, res.value.Name), res.value.UID)
              else Fnv1a.Init64;
    var h2 := Fnv1a.Fold(h1, policy);
    var h3 := Fnv1a.Fold(h2, rule);
    var h4 := Fnv1a.Fold(h3, result);
    var h5 := Fnv1a.Fold(h4, category);
    Fnv1a.Fold(h5, message)
  }

  /** Threading the state field by field is hashing the concatenation. */
  lemma {:induction false} ConcatenatedHash(h: bv64, a: Bytes, b: Bytes, c: Bytes, d: Bytes, e: Bytes, f: Bytes)
    ensures Fnv1a.Fold(h, a + b + c + d + e + f) ==
            Fnv1a.Fold(Fnv1a.Fold(Fnv1a.Fold(Fnv1a.Fold(Fnv1a.Fold(Fnv1a.Fold(h, a), b), c), d), e), f)
  {
    Fnv1a.FoldAppend(h, a + b + c + d + e, f);
    Fnv1a.FoldAppend(h, a + b + c + d, e);
    Fnv1a.FoldAppend(h, a + b + c, d);
    Fnv1a.FoldAppend(h, a + b, c);
    Fnv1a.FoldAppend(h, a, b);
  }

  /** A PolicyReportResult; GetID is the only operation that writes to it (its ID field). */
  class PolicyReportResult {
    var ID: Bytes
    var Source: Bytes
    var Policy: Bytes
    var Rule: Bytes
    var Resources: seq<ObjectReference>
    var Message: Bytes
    var Result: PolicyResult
    var Scored: bool
    var Properties: map<Bytes, Bytes>
    var Timestamp: Timestamp
    var Category: Bytes
    var Severity: Priorities.PolicySeverity
    var Priority: Priorities.Priority

    /** GetResource: the first of Resources, or nil when there is none. */
    function GetResource(): (res: Option<ObjectReference>)
      reads this
      ensures res.None? <==> |Resources| == 0
      ensures res.Some? ==> res.value == Resources[0]
    {
      if |Resources| == 0 then None else Some(Resources[0])
    }

    /** HasResource: whether GetResource has something to return. */
    function HasResource(): (b: bool)
      reads this
      ensures b <==> GetResource().Some?
    {
      |Resources| > 0
    }

    /**
     * What GetID returns in the current state: the cached ID when it is
     * set, else the collector-supplied Properties["resultID"] when present
     * (even ""), else the base-10 FNV-1a 64 fingerprint of the identity
     * fields, a canonical digit string of 1 to 20 digits.
     */
    function ResultID(): (id: Bytes)
      reads this
      ensures ID != [] ==> id == ID
      ensures ID == [] && ResultIDKey in Properties ==> id == Properties[ResultIDKey]
      ensures ID == [] && ResultIDKey !in Properties ==>
        id == Decimal.FormatUint(Fnv1a.Hash64(IdentityInput(GetResource(), Policy, Rule, Result, Category, Message))) &&
        Decimal.IsCanonical(id) && 1 <= |id| <= 20
    {
      if ID != [] then ID
      else if ResultIDKey in Properties then Properties[ResultIDKey]
      else
        var h := FieldsHash(GetResource(), Policy, Rule, Result, Category, Message);
        Decimal.FormatUintLength(h);
        Decimal.FormatUint(h)
    }

    /**
     * GetID: returns the identity and caches it in ID; no other field
     * changes. A non-empty answer is cached for good; an empty one (an
     * override of "") leaves ID empty.
     */
    method GetID() returns (id: Bytes)
      modifies this`ID
      ensures id == old(ResultID())
      ensures ID == id
      ensures old(ID) != [] ==> ID == old(ID)
    {
      if ID != [] {
        return ID;
      }
      if ResultIDKey in Properties {
        ID := Properties[ResultIDKey];
        return ID;
      }
      var h1 := Fnv1a.Init64;
      var res := GetResource();
      if res.Some? {
        h1 := Fnv1a.AddString64(h1, res.value.Name);
        h1 := Fnv1a.AddString64(h1, res.value.UID);
      }
      h1 := Fnv1a.AddString64(h1, Policy);
      h1 := Fnv1a.AddString64(h1, Rule);
      h1 := Fnv1a.AddString64(h1, Result);
      h1 := Fnv1a.AddString64(h1, Category);
      h1 := Fnv1a.AddString64(h1, Message);
      ID := Decimal.FormatUint(h1);
      return ID;
    }
  }

  /**
   * A later GetID returns what an earlier non-empty one did, whatever
   * happens in between to the fields other than ID.
   */
  method CachedIDSurvivesEdits(r: PolicyReportResult, policy: Bytes, message: Bytes, properties: map<Bytes, Bytes>)
    returns (first: Bytes, second: Bytes)
    modifies r
    ensures first == old(r.ResultID())
    ensures first != [] ==> second == first
  {
    first := r.GetID();
    r.Policy := policy;
    r.Message := message;
    r.Properties := properties;
    r.Resources := [];
    second := r.GetID();
  }

  /**
   * The identity depends only on the cached ID, the resultID property,
   * the primary resource's Name and UID, Policy, Rule, Result, Category
   * and Message: Source, Scored, Timestamp, Severity, Priority, the other
   * properties and every resource after the first may differ.
   */
  lemma DeterminedByIdentityFields(r1: PolicyReportResult, r2: PolicyReportResult)
    requires r1.ID == r2.ID
    requires ResultIDKey in r1.Properties <==> ResultIDKey in r2.Properties
    requires ResultIDKey in r1.Properties ==> r1.Properties[ResultIDKey] == r2.Properties[ResultIDKey]
    requires r1.GetResource() == r2.GetResource()
    requires r1.Policy == r2.Policy && r1.Rule == r2.Rule && r1.Result == r2.Result
    requires r1.Category == r2.Category && r1.Message == r2.Message
    ensures r1.ResultID() == r2.ResultID()
  {
  }

  /**
   * A result with no resources gets the identity of one whose first
   * resource has empty Name and UID, since absorbing "" leaves the FNV-1a
   * state unchanged.
   */
  lemma NoResourceIDAsEmptyResource(r1: PolicyReportResult, r2: PolicyReportResult)
    requires r1.ID == r2.ID && r1.Properties == r2.Properties
    requires r1.Resources == [] && |r2.Resources| > 0
    requires r2.Resources[0].Name == [] && r2.Resources[0].UID == []
    requires r1.Policy == r2.Policy && r1.Rule == r2.Rule && r1.Result == r2.Result
    requires r1.Category == r2.Category && r1.Message == r2.Message
    ensures r1.ResultID() == r2.ResultID()
  {
    Fnv1a.FoldEmpty(Fnv1a.Fold(Fnv1a.Init64, []));
    Fnv1a.FoldEmpty(Fnv1a.Init64);
  }

  /**
   * The fields are hashed with no separator, so moving bytes across a
   * field boundary keeps the identity: Policy "ab" with Rule "c" hashes
   * like Policy "a" with Rule "bc".
   */
  lemma FieldBoundaryCollision(res: Option<ObjectReference>, p1: Bytes, r1: Bytes, p2: Bytes, r2: Bytes,
                               result: PolicyResult, category: Bytes, message: Bytes)
    requires p1 + r1 == p2 + r2
    ensures FieldsHash(res, p1, r1, result, category, message) == FieldsHash(res, p2, r2, result, category, message)
  {
    var head := if res.Some? then res.value.Name + res.value.UID else [];
    assert IdentityInput(res, p1, r1, result, category, message) == head + (p1 + r1) + result + category + message;
    assert IdentityInput(res, p2, r2, result, category, message) == head + (p2 + r2) + result + category + message;
  }
}
