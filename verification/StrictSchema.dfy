// The strict JSON schema subset: a recursive check that threads one node counter, proved to accept
// exactly the schemas all of whose nodes meet one condition and whose size and depth are bounded.
module StrictSchema {
  import opened Wrappers
  import opened Collections
  import opened Arithmetic

  const MAX_SCHEMA_BYTES := 64 * 1024
  const MAX_SCHEMA_DEPTH := 32
  const MAX_SCHEMA_NODES := 4096
  const MAX_ENUM_VALUES := 256
  const MAX_SIZE_BOUND := 1_000_000

  // ----- JSON values -----

  // Integers that fit 64 bits, signed or unsigned, and finite floating-point numbers.
  datatype Number = Integer(value: int) | Float(real)

  datatype Field = Field(name: string, value: Json)

  type Fields = seq<Field>

  datatype Json =
    | Null
    | Bool(flag: bool)
    | Num(number: Number)
    | Str(text: string)
    | Arr(items: seq<Json>)
    | Obj(fields: Fields)

  predicate DistinctNames(fields: seq<Field>) {
    forall i, j :: 0 <= i < j < |fields| ==> fields[i].name != fields[j].name
  }

  // Parsing leaves each key of an object once.
  predicate Parsed(value: Json) {
    match value
    case Arr(items) => forall i :: 0 <= i < |items| ==> Parsed(items[i])
    case Obj(fields) => DistinctNames(fields) && forall i :: 0 <= i < |fields| ==> Parsed(fields[i].value)
    case _ => true
  }

  function Get(fields: seq<Field>, name: string): (r: Option<Json>)
    ensures r.None? <==> forall i :: 0 <= i < |fields| ==> fields[i].name != name
    ensures r.Some? ==> exists i :: 0 <= i < |fields| && fields[i] == Field(name, r.value)
  {
    if fields == [] then None
    else if fields[0].name == name then Some(fields[0].value)
    else Get(fields[1..], name)
  }

  predicate Has(fields: seq<Field>, name: string) {
    Get(fields, name).Some?
  }

  function RealOf(number: Number): real {
    match number
    case Integer(i) => (if i >= 0 then Rounded(i, 1) else 0 - Rounded(-i, 1)) as real
    case Float(x) => x
  }

  // ----- Integers as floating-point numbers -----

  // The 53 bits of a double-precision significand.
  const EXACT: nat := 0x20_0000_0000_0000

  // The nearest multiple of the unit, the even one on a tie.
  function Nearest(n: nat, unit: nat): nat
    requires unit > 0
  {
    if n >= 2 * unit then 2 * unit + Nearest(n - 2 * unit, unit)
    else if 2 * n <= unit then 0
    else if 2 * n < 3 * unit then unit
    else 2 * unit
  }

  // Below this the quotient by the unit fits the significand.
  function Limit(unit: nat): nat {
    0x20_0000_0000_0000 * unit
  }

  // Rounding doubles the unit until the quotient fits the significand.
  function Rounded(n: nat, unit: nat): nat
    requires unit > 0
    decreases if unit <= n then n - unit + 1 else 0
  {
    if n < Limit(unit) then Nearest(n, unit) else Rounded(n, 2 * unit)
  }

  // It lies between the even multiples on either side.
  lemma {:induction false} NearestBetween(n: nat, unit: nat, low: nat, high: nat)
    requires unit > 0 && low * (2 * unit) <= n < high * (2 * unit)
    ensures low * (2 * unit) <= Nearest(n, unit) <= high * (2 * unit)
  {
    if n >= 2 * unit {
      OneMore(high - 1, 2 * unit);
      if low > 0 {
        OneMore(low - 1, 2 * unit);
      }
      NearestBetween(n - 2 * unit, unit, if low > 0 then low - 1 else 0, high - 1);
    } else {
      MulMonotone(1, high, 2 * unit);
    }
  }

  lemma {:induction false} NearestMonotone(a: nat, b: nat, unit: nat)
    requires unit > 0 && a <= b
    ensures Nearest(a, unit) <= Nearest(b, unit)
  {
    if a >= 2 * unit {
      NearestMonotone(a - 2 * unit, b - 2 * unit, unit);
    }
  }

  lemma NearestInRange(n: nat, unit: nat)
    requires unit > 0 && n < Limit(unit)
    ensures Nearest(n, unit) <= Limit(unit)
    ensures Limit(unit) <= 2 * n ==> Limit(unit) <= 2 * Nearest(n, unit)
  {
    NearestBetween(n, unit, if Limit(unit) <= 2 * n then 0x8_0000_0000_0000 else 0, 0x10_0000_0000_0000);
  }

  lemma {:induction false} RoundedAtLeast(n: nat, unit: nat)
    requires unit > 0 && Limit(unit) <= 2 * n
    ensures Limit(unit) <= 2 * Rounded(n, unit)
    decreases if unit <= n then n - unit + 1 else 0
  {
    if n < Limit(unit) {
      NearestInRange(n, unit);
    } else {
      RoundedAtLeast(n, 2 * unit);
    }
  }

  lemma {:induction false} RoundedMonotone(a: nat, b: nat, unit: nat)
    requires unit > 0 && a <= b
    ensures Rounded(a, unit) <= Rounded(b, unit)
    decreases if unit <= b then b - unit + 1 else 0
  {
    if b < Limit(unit) {
      NearestMonotone(a, b, unit);
    } else if a < Limit(unit) {
      NearestInRange(a, unit);
      RoundedAtLeast(b, 2 * unit);
    } else {
      RoundedMonotone(a, b, 2 * unit);
    }
  }

  lemma {:induction false} NearestToOne(n: nat)
    ensures Nearest(n, 1) == n
  {
    if n >= 2 {
      NearestToOne(n - 2);
    }
  }

  lemma {:induction false} NearestEven(k: nat)
    ensures Nearest(2 * k, 2) == 2 * k
  {
    if k >= 2 {
      NearestEven(k - 2);
    }
  }

  lemma RoundedExact(n: nat)
    requires n <= EXACT
    ensures Rounded(n, 1) == n
  {
    NearestToOne(n);
    NearestEven(EXACT / 2);
    assert Rounded(EXACT, 1) == Rounded(EXACT, 2) == Nearest(EXACT, 2);
  }

  // Integer limits in order are never taken for disordered, and up to 2^53 no disorder is missed.
  lemma RoundingKeepsOrder(a: int, b: int)
    ensures a <= b ==> RealOf(Integer(a)) <= RealOf(Integer(b))
    ensures 0 - EXACT <= a <= EXACT && 0 - EXACT <= b <= EXACT ==>
      (RealOf(Integer(a)) <= RealOf(Integer(b)) <==> a <= b)
  {
    if 0 <= a <= b {
      RoundedMonotone(a, b, 1);
    } else if a <= b <= 0 {
      RoundedMonotone(-b, -a, 1);
    }
    if 0 - EXACT <= a <= EXACT && 0 - EXACT <= b <= EXACT {
      RoundedExact(if a >= 0 then a else -a);
      RoundedExact(if b >= 0 then b else -b);
    }
  }

  // Beyond it one is: these limits are accepted.
  lemma RoundingHidesDisorder()
    ensures RealOf(Integer(EXACT + 1)) <= RealOf(Integer(EXACT))
  {
    assert Rounded(EXACT + 1, 1) == Nearest(EXACT + 1, 2) && Rounded(EXACT, 1) == Nearest(EXACT, 2);
    TieToEven(EXACT / 4);
  }

  lemma {:induction false} TieToEven(k: nat)
    ensures Nearest(4 * k + 1, 2) == Nearest(4 * k, 2)
  {
    if k > 0 {
      TieToEven(k - 1);
    }
  }

  ghost predicate ComparedExactly(n: nat) {
    forall a: int, b: int :: 0 - n <= a <= n && 0 - n <= b <= n ==>
      (RealOf(Integer(a)) <= RealOf(Integer(b)) <==> a <= b)
  }

  // Integer limits of up to n in magnitude are compared exactly for n up to 2^53 and no further.
  lemma RoundingThreshold(n: nat)
    ensures ComparedExactly(n) <==> n <= EXACT
  {
    if n <= EXACT {
      forall a: int, b: int | 0 - n <= a <= n && 0 - n <= b <= n
        ensures RealOf(Integer(a)) <= RealOf(Integer(b)) <==> a <= b
      {
        RoundingKeepsOrder(a, b);
      }
    } else {
      RoundingHidesDisorder();
      var a, b := EXACT + 1, EXACT;
      assert !(RealOf(Integer(a)) <= RealOf(Integer(b)) <==> a <= b);
    }
  }

  // ----- The condition at one node -----

  const KEYWORDS := [
    "type", "properties", "required", "additionalProperties", "items", "enum", "const", "minimum", "maximum",
    "minLength", "maxLength", "minItems", "maxItems", "description", "title"]

  const TYPES := ["object", "array", "string", "number", "integer", "boolean", "null"]

  predicate MatchesType(value: Json, schemaType: string) {
    match schemaType
    case "object" => value.Obj?
    case "array" => value.Arr?
    case "string" => value.Str?
    case "number" => value.Num?
    case "integer" => value.Num? && value.number.Integer?
    case "boolean" => value.Bool?
    case "null" => value.Null?
    case _ => false
  }

  lemma KeywordsExact()
    ensures (set k | k in KEYWORDS) == {
      "type", "properties", "required", "additionalProperties", "items", "enum", "const", "minimum", "maximum",
      "minLength", "maxLength", "minItems", "maxItems", "description", "title"}
  {
  }

  // The types a value is of.
  function TypesOf(value: Json): set<string> {
    match value
    case Null => {"null"}
    case Bool(_) => {"boolean"}
    case Num(Integer(_)) => {"number", "integer"}
    case Num(Float(_)) => {"number"}
    case Str(_) => {"string"}
    case Arr(_) => {"array"}
    case Obj(_) => {"object"}
  }

  lemma TypesExact(value: Json, schemaType: string)
    ensures MatchesType(value, schemaType) <==> schemaType in TypesOf(value)
    ensures forall t :: t in TypesOf(value) ==> t in TYPES
  {
  }

  // Floating-point limits are compared as they are, also with integers, which are rounded.
  lemma FloatsAreThemselves(x: real, y: real, i: int)
    ensures RealOf(Float(x)) <= RealOf(Float(y)) <==> x <= y
    ensures 0 - EXACT <= i <= EXACT ==> (RealOf(Float(x)) <= RealOf(Integer(i)) <==> x <= i as real)
  {
    if 0 - EXACT <= i <= EXACT {
      RoundedExact(if i >= 0 then i else -i);
    }
  }

  ghost predicate ValuesMatch(fields: Fields, schemaType: string) {
    && (Has(fields, "enum") ==>
      var allowed := Get(fields, "enum").value;
      && allowed.Arr?
      && 1 <= |allowed.items| <= MAX_ENUM_VALUES
      && forall i :: 0 <= i < |allowed.items| ==> MatchesType(allowed.items[i], schemaType))
    && (Has(fields, "const") ==> MatchesType(Get(fields, "const").value, schemaType))
    && (Has(fields, "description") ==> Get(fields, "description").value.Str?)
    && (Has(fields, "title") ==> Get(fields, "title").value.Str?)
  }

  predicate NumericBound(value: Json, schemaType: string) {
    && value.Num?
    && (schemaType == "integer" ==> RealOf(value.number).Floor as real == RealOf(value.number))
  }

  predicate SizeBound(value: Json) {
    value.Num? && value.number.Integer? && 0 <= value.number.value <= MAX_SIZE_BOUND
  }

  // Two bounds that may be missing, each for the given types only; neither excludes the other.
  ghost predicate BoundsOk(fields: Fields, low: string, high: string, applies: bool, valid: Json -> bool)
    requires forall value: Json :: valid(value) ==> value.Num?
  {
    && (Has(fields, low) ==> applies && valid(Get(fields, low).value))
    && (Has(fields, high) ==> applies && valid(Get(fields, high).value))
    && (Has(fields, low) && Has(fields, high) ==>
      RealOf(Get(fields, low).value.number) <= RealOf(Get(fields, high).value.number))
  }

  function Names(properties: seq<Field>): seq<Json> {
    seq(|properties|, i requires 0 <= i < |properties| => Str(properties[i].name))
  }

  // An object schema is closed and requires every property exactly once.
  ghost predicate ObjectOk(fields: Fields) {
    && Get(fields, "additionalProperties") == Some(Bool(false))
    && Has(fields, "properties") && Get(fields, "properties").value.Obj?
    && Has(fields, "required") && Get(fields, "required").value.Arr?
    && multiset(Get(fields, "required").value.items) == multiset(Names(Get(fields, "properties").value.fields))
  }

  ghost predicate ShapeOk(fields: Fields, schemaType: string) {
    if schemaType == "object" then ObjectOk(fields)
    else if schemaType == "array" then Has(fields, "items")
    else
      && !Has(fields, "properties") && !Has(fields, "required")
      && !Has(fields, "additionalProperties") && !Has(fields, "items")
  }

  ghost predicate LimitsOk(fields: Fields, schemaType: string) {
    && BoundsOk(fields, "minimum", "maximum", schemaType in ["number", "integer"], v => NumericBound(v, schemaType))
    && BoundsOk(fields, "minLength", "maxLength", schemaType == "string", SizeBound)
    && BoundsOk(fields, "minItems", "maxItems", schemaType == "array", SizeBound)
  }

  // A declared type, and known keywords that agree with it.
  ghost predicate KeywordsOk(node: Json) {
    && node.Obj?
    && (forall i :: 0 <= i < |node.fields| ==> node.fields[i].name in KEYWORDS)
    && TypeOf(node).Some?
    && TypeOf(node).value in TYPES
    && ValuesMatch(node.fields, TypeOf(node).value)
    && LimitsOk(node.fields, TypeOf(node).value)
  }

  ghost predicate NodeOk(node: Json) {
    KeywordsOk(node) && ShapeOk(node.fields, TypeOf(node).value)
  }

  function TypeOf(node: Json): Option<string> {
    if node.Obj? && Has(node.fields, "type") && Get(node.fields, "type").value.Str?
    then Some(Get(node.fields, "type").value.text)
    else None
  }

  // ----- The nodes of a schema -----

  function Values(properties: seq<Field>): seq<Json> {
    seq(|properties|, i requires 0 <= i < |properties| => properties[i].value)
  }

  ghost predicate Below(children: seq<Json>, node: Json) {
    forall i :: 0 <= i < |children| ==> children[i] < node
  }

  function Children(node: Json): (r: seq<Json>)
    ensures Parsed(node) ==> forall i :: 0 <= i < |r| ==> Parsed(r[i])
    ensures Below(r, node)
  {
    if TypeOf(node) == Some("object") && Has(node.fields, "properties") && Get(node.fields, "properties").value.Obj?
    then
      assert Parsed(node) ==> Parsed(Get(node.fields, "properties").value);
      Values(Get(node.fields, "properties").value.fields)
    else if TypeOf(node) == Some("array") && Has(node.fields, "items")
    then [Get(node.fields, "items").value]
    else []
  }

  // How many nodes the walk visits, and whether they are all shallow enough and well formed.
  ghost function Size(node: Json): nat
    decreases node, |Children(node)| + 1
  {
    1 + SizeFrom(node, Children(node), 0)
  }

  ghost function SizeFrom(node: Json, children: seq<Json>, k: nat): nat
    requires k <= |children| && Below(children, node)
    decreases node, |children| - k
  {
    if k == |children| then 0 else Size(children[k]) + SizeFrom(node, children, k + 1)
  }

  ghost predicate AllOk(node: Json, depth: nat)
    decreases node, |Children(node)| + 1
  {
    depth <= MAX_SCHEMA_DEPTH && NodeOk(node) && AllOkFrom(node, Children(node), depth, 0)
  }

  ghost predicate AllOkFrom(node: Json, children: seq<Json>, depth: nat, k: nat)
    requires k <= |children| && Below(children, node)
    decreases node, |children| - k
  {
    k == |children| || (AllOk(children[k], depth + 1) && AllOkFrom(node, children, depth, k + 1))
  }

  datatype Visit = Visit(node: Json, depth: nat)

  // Every schema node in the order of the walk, each with its depth.
  ghost function Visits(node: Json, depth: nat): seq<Visit>
    decreases node, |Children(node)| + 1
  {
    [Visit(node, depth)] + VisitsFrom(node, Children(node), depth, 0)
  }

  ghost function VisitsFrom(node: Json, children: seq<Json>, depth: nat, k: nat): seq<Visit>
    requires k <= |children| && Below(children, node)
    decreases node, |children| - k
  {
    if k == |children| then []
    else Visits(children[k], depth + 1) + VisitsFrom(node, children, depth, k + 1)
  }

  ghost predicate Acceptable(visits: seq<Visit>) {
    forall visit :: visit in visits ==> visit.depth <= MAX_SCHEMA_DEPTH && NodeOk(visit.node)
  }

  // The recursive counts are those of the listed nodes.
  lemma {:induction false} WalkIsExact(node: Json, depth: nat)
    ensures |Visits(node, depth)| == Size(node)
    ensures Acceptable(Visits(node, depth)) <==> AllOk(node, depth)
    decreases node, |Children(node)| + 1
  {
    WalkFromIsExact(node, Children(node), depth, 0);
    AcceptableConcat([Visit(node, depth)], VisitsFrom(node, Children(node), depth, 0));
  }

  lemma {:induction false} WalkFromIsExact(node: Json, children: seq<Json>, depth: nat, k: nat)
    requires k <= |children| && Below(children, node)
    ensures |VisitsFrom(node, children, depth, k)| == SizeFrom(node, children, k)
    ensures Acceptable(VisitsFrom(node, children, depth, k)) <==> AllOkFrom(node, children, depth, k)
    decreases node, |children| - k
  {
    if k < |children| {
      WalkIsExact(children[k], depth + 1);
      WalkFromIsExact(node, children, depth, k + 1);
      AcceptableConcat(Visits(children[k], depth + 1), VisitsFrom(node, children, depth, k + 1));
    }
  }

  lemma AcceptableConcat(a: seq<Visit>, b: seq<Visit>)
    ensures Acceptable(a + b) <==> Acceptable(a) && Acceptable(b)
  {
  }

  // ----- Required names -----

  lemma SubsetOfSameSize<T>(a: set<T>, b: set<T>)
    requires a <= b && |a| == |b|
    ensures a == b
  {
    assert b == a + (b - a);
  }

  // The three tests of the validator together say that the names are a permutation.
  lemma RequiredIsPermutation(required: seq<Json>, properties: Fields)
    requires DistinctNames(properties)
    ensures
      && |required| == |properties|
      && (forall i :: 0 <= i < |required| ==> required[i].Str? && Has(properties, required[i].text))
      && Distinct(required)
      <==> multiset(required) == multiset(Names(properties))
  {
    var names := Names(properties);
    assert Distinct(names);
    DistinctCounts(names);
    forall i | 0 <= i < |required|
      ensures required[i] in names <==> required[i].Str? && Has(properties, required[i].text)
    {
      if required[i].Str? && Has(properties, required[i].text) {
        var j :| 0 <= j < |properties| && properties[j].name == required[i].text;
        assert names[j] == required[i];
      }
    }
    if multiset(required) == multiset(names) {
      SameBag(required, names);
    } else if |required| == |properties| && Distinct(required)
      && forall i :: 0 <= i < |required| ==> required[i] in names {
      SameElements(required, names);
      assert false;
    }
  }

  lemma SameElements<T>(a: seq<T>, b: seq<T>)
    requires |a| == |b| && Distinct(a) && Distinct(b)
    requires forall i :: 0 <= i < |a| ==> a[i] in b
    ensures multiset(a) == multiset(b)
  {
    DistinctCounts(a);
    DistinctCounts(b);
    SubsetOfSameSize(Elements(a), Elements(b));
    assert forall x :: x in a <==> x in Elements(a);
    assert forall x :: x in b <==> x in Elements(b);
    assert forall x :: multiset(a)[x] == multiset(b)[x];
  }

  lemma SameBag<T>(a: seq<T>, b: seq<T>)
    requires multiset(a) == multiset(b) && Distinct(b)
    ensures |a| == |b| && Distinct(a)
    ensures forall i :: 0 <= i < |a| ==> a[i] in b
  {
    assert |multiset(a)| == |a| && |multiset(b)| == |b|;
    forall i | 0 <= i < |a|
      ensures a[i] in b
    {
      assert a[i] in multiset(b);
    }
    forall i, j | 0 <= i < j < |a|
      ensures a[i] != a[j]
    {
      DistinctCounts(b);
      assert a == a[..j] + [a[j]] + a[j + 1..];
      assert a[i] == a[..j][i];
      assert a[i] in multiset(a[..j]);
    }
  }

  // ----- The validator -----

  method ValidateNumericBounds(fields: Fields, schemaType: string) returns (ok: bool)
    ensures ok <==> BoundsOk(fields, "minimum", "maximum", true, v => NumericBound(v, schemaType))
  {
    var minimum, maximum := Get(fields, "minimum"), Get(fields, "maximum");
    if (minimum.Some? && !minimum.value.Num?) || (maximum.Some? && !maximum.value.Num?) {
      return false;
    }
    if schemaType == "integer" {
      if minimum.Some? && RealOf(minimum.value.number).Floor as real != RealOf(minimum.value.number) {
        return false;
      }
      if maximum.Some? && RealOf(maximum.value.number).Floor as real != RealOf(maximum.value.number) {
        return false;
      }
    }
    ok := !(minimum.Some? && maximum.Some? && RealOf(minimum.value.number) > RealOf(maximum.value.number));
  }

  method ValidateSizeBounds(fields: Fields, schemaType: string) returns (ok: bool)
    ensures ok <==>
      && (schemaType == "string" ==> BoundsOk(fields, "minLength", "maxLength", true, SizeBound))
      && (schemaType == "array" ==> BoundsOk(fields, "minItems", "maxItems", true, SizeBound))
  {
    var low, high;
    match schemaType {
      case "string" => low, high := "minLength", "maxLength";
      case "array" => low, high := "minItems", "maxItems";
      case _ => return true;
    }
    var minimum, maximum := Get(fields, low), Get(fields, high);
    if (minimum.Some? && !SizeBound(minimum.value)) || (maximum.Some? && !SizeBound(maximum.value)) {
      return false;
    }
    if minimum.Some? && maximum.Some? {
      RoundingKeepsOrder(minimum.value.number.value, maximum.value.number.value);
    }
    ok := !(minimum.Some? && maximum.Some? && minimum.value.number.value > maximum.value.number.value);
  }

  method ValidateValues(fields: Fields, schemaType: string) returns (ok: bool)
    ensures ok <==> ValuesMatch(fields, schemaType)
  {
    if Has(fields, "enum") {
      var allowed := Get(fields, "enum").value;
      if !allowed.Arr? || allowed.items == [] || |allowed.items| > MAX_ENUM_VALUES {
        return false;
      }
      for i := 0 to |allowed.items|
        invariant forall j :: 0 <= j < i ==> MatchesType(allowed.items[j], schemaType)
      {
        if !MatchesType(allowed.items[i], schemaType) {
          return false;
        }
      }
    }
    if Has(fields, "const") && !MatchesType(Get(fields, "const").value, schemaType) {
      return false;
    }
    ok :=
      && !(Has(fields, "description") && !Get(fields, "description").value.Str?)
      && !(Has(fields, "title") && !Get(fields, "title").value.Str?);
  }

  method ValidateLimits(fields: Fields, schemaType: string) returns (ok: bool)
    ensures ok <==> LimitsOk(fields, schemaType)
  {
    ok := ValidateNumericBounds(fields, schemaType);
    if !ok {
      return;
    }
    ok := ValidateSizeBounds(fields, schemaType);
    if !ok {
      return;
    }
    if (Has(fields, "minimum") || Has(fields, "maximum")) && schemaType !in ["number", "integer"] {
      return false;
    }
    if (Has(fields, "minLength") || Has(fields, "maxLength")) && schemaType != "string" {
      return false;
    }
    ok := !((Has(fields, "minItems") || Has(fields, "maxItems")) && schemaType != "array");
  }

  method ValidateRequired(required: seq<Json>, properties: Fields) returns (ok: bool)
    requires DistinctNames(properties)
    ensures ok <==> multiset(required) == multiset(Names(properties))
  {
    RequiredIsPermutation(required, properties);
    if |required| != |properties| {
      return false;
    }
    for i := 0 to |required|
      invariant forall j :: 0 <= j < i ==> required[j].Str? && Has(properties, required[j].text)
    {
      if !required[i].Str? || !Has(properties, required[i].text) {
        return false;
      }
    }
    ok := NoDuplicates(required);
  }

  method NoDuplicates(required: seq<Json>) returns (ok: bool)
    requires forall i :: 0 <= i < |required| ==> required[i].Str?
    ensures ok <==> Distinct(required)
  {
    var unique: set<string> := {};
    for i := 0 to |required|
      invariant forall j :: 0 <= j < i ==> required[j].text in unique
      invariant forall name :: name in unique ==> exists j :: 0 <= j < i && required[j].text == name
      invariant forall j, k :: 0 <= j < k < i ==> required[j] != required[k]
    {
      if required[i].text in unique {
        return false;
      }
      unique := unique + {required[i].text};
    }
    ok := true;
  }

  method ValidateObject(node: Json, depth: nat, nodes: nat) returns (ok: bool, counted: nat)
    requires Parsed(node) && TypeOf(node) == Some("object") && depth <= MAX_SCHEMA_DEPTH && nodes <= MAX_SCHEMA_NODES
    ensures ok <==>
      && ObjectOk(node.fields)
      && AllOkFrom(node, Children(node), depth, 0)
      && nodes + SizeFrom(node, Children(node), 0) <= MAX_SCHEMA_NODES
    ensures ok ==> counted == nodes + SizeFrom(node, Children(node), 0)
    decreases node, 1
  {
    counted := nodes;
    var fields := node.fields;
    if Get(fields, "additionalProperties") != Some(Bool(false)) {
      return false, counted;
    }
    if !Has(fields, "properties") || !Get(fields, "properties").value.Obj? {
      return false, counted;
    }
    var properties := Get(fields, "properties").value.fields;
    if !Has(fields, "required") || !Get(fields, "required").value.Arr? {
      return false, counted;
    }
    ok := ValidateRequired(Get(fields, "required").value.items, properties);
    if !ok {
      return;
    }
    assert Children(node) == Values(properties);
    ok, counted := ValidateChildren(node, Values(properties), depth, counted);
  }

  method ValidateChildren(node: Json, children: seq<Json>, depth: nat, nodes: nat) returns (ok: bool, counted: nat)
    requires Below(children, node) && (forall i :: 0 <= i < |children| ==> Parsed(children[i]))
    requires depth <= MAX_SCHEMA_DEPTH && nodes <= MAX_SCHEMA_NODES
    ensures ok <==> AllOkFrom(node, children, depth, 0) && nodes + SizeFrom(node, children, 0) <= MAX_SCHEMA_NODES
    ensures ok ==> counted == nodes + SizeFrom(node, children, 0)
    decreases node, 0
  {
    counted := nodes;
    for i := 0 to |children|
      invariant counted <= MAX_SCHEMA_NODES
      invariant counted + SizeFrom(node, children, i) == nodes + SizeFrom(node, children, 0)
      invariant AllOkFrom(node, children, depth, i) <==> AllOkFrom(node, children, depth, 0)
    {
      ok, counted := ValidateNode(children[i], depth + 1, counted);
      if !ok {
        return;
      }
    }
    ok := true;
  }

  // The counter runs over the whole walk; it is exact whenever the node is accepted.
  method ValidateNode(node: Json, depth: nat, nodes: nat) returns (ok: bool, counted: nat)
    requires Parsed(node) && nodes <= MAX_SCHEMA_NODES
    ensures ok <==> AllOk(node, depth) && nodes + Size(node) <= MAX_SCHEMA_NODES
    ensures ok ==> counted == nodes + Size(node)
    decreases node, 3
  {
    counted := nodes;
    if depth > MAX_SCHEMA_DEPTH {
      return false, counted;
    }
    counted := counted + 1;
    if counted > MAX_SCHEMA_NODES {
      return false, counted;
    }
    ok := ValidateKeywords(node);
    if !ok {
      return;
    }
    ok, counted := ValidateShape(node, depth, counted);
  }

  // The part of the check that depends on the type, with the children.
  method ValidateShape(node: Json, depth: nat, nodes: nat) returns (ok: bool, counted: nat)
    requires Parsed(node) && TypeOf(node).Some? && depth <= MAX_SCHEMA_DEPTH && nodes <= MAX_SCHEMA_NODES
    ensures ok <==>
      && ShapeOk(node.fields, TypeOf(node).value)
      && AllOkFrom(node, Children(node), depth, 0)
      && nodes + SizeFrom(node, Children(node), 0) <= MAX_SCHEMA_NODES
    ensures ok ==> counted == nodes + SizeFrom(node, Children(node), 0)
    decreases node, 2
  {
    counted := nodes;
    match TypeOf(node).value
    case "object" =>
      ok, counted := ValidateObject(node, depth, counted);
    case "array" =>
      if !Has(node.fields, "items") {
        return false, counted;
      }
      ArrayWalk(node, depth);
      ok, counted := ValidateNode(Get(node.fields, "items").value, depth + 1, counted);
    case _ =>
      ok :=
        && !Has(node.fields, "properties") && !Has(node.fields, "required")
        && !Has(node.fields, "additionalProperties") && !Has(node.fields, "items");
  }

  method ValidateKeywords(node: Json) returns (ok: bool)
    ensures ok <==> KeywordsOk(node)
  {
    if !node.Obj? || exists i :: 0 <= i < |node.fields| && node.fields[i].name !in KEYWORDS {
      return false;
    }
    if TypeOf(node).None? || TypeOf(node).value !in TYPES {
      return false;
    }
    ok := ValidateValues(node.fields, TypeOf(node).value);
    if ok {
      ok := ValidateLimits(node.fields, TypeOf(node).value);
    }
  }

  lemma ArrayWalk(node: Json, depth: nat)
    requires TypeOf(node) == Some("array") && Has(node.fields, "items")
    ensures SizeFrom(node, Children(node), 0) == Size(Get(node.fields, "items").value)
    ensures AllOkFrom(node, Children(node), depth, 0) <==> AllOk(Get(node.fields, "items").value, depth + 1)
  {
  }

  method ValidateStrictSchema(schema: Json, serializedBytes: nat) returns (ok: bool)
    requires Parsed(schema)
    ensures ok <==>
      && serializedBytes <= MAX_SCHEMA_BYTES
      && TypeOf(schema) == Some("object")
      && Acceptable(Visits(schema, 0))
      && |Visits(schema, 0)| <= MAX_SCHEMA_NODES
  {
    if serializedBytes > MAX_SCHEMA_BYTES || TypeOf(schema) != Some("object") {
      return false;
    }
    WalkIsExact(schema, 0);
    var nodes;
    ok, nodes := ValidateNode(schema, 0, 0);
  }
}
