/**
 * JSON to script values and back (sqlite2meilisearch, transform.rs). Numbers are kept as text by the JSON
 * library; here they are their values, and whether the text has a fraction or an exponent.
 */
module Transform {
  import opened Wrappers

  const MAX_DEPTH := 64
  const MAX_ITEMS := 100_000
  const MAX_FIELDS := 10_000

  datatype Number = Integral(n: int) | Fractional(r: real)

  datatype Json =
    | Null
    | Bool(b: bool)
    | Text(s: string)
    | Num(number: Number)
    | List(items: seq<Json>)
    | Object(fields: map<string, Json>)

  /** A script value. A double is its value, or None if it is not finite. */
  datatype Dynamic =
    | Unit
    | Truth(b: bool)
    | Str(s: string)
    | Int(n: int)
    | Float(f: Option<real>)
    | Array(elements: seq<Dynamic>)
    | Map(entries: map<string, Dynamic>)
    | Other

  /** Doubles: rounding a number to one (None beyond the largest), and the shortest text that stands for one. */
  datatype Doubles = Doubles(round: real -> Option<real>, shortest: real -> real)

  predicate IsDouble(fp: Doubles, d: real) {
    fp.round(d) == Some(d)
  }

  ghost predicate Lawful(fp: Doubles) {
    && (forall r :: fp.round(r).Some? ==> IsDouble(fp, fp.round(r).value))
    && (forall d :: IsDouble(fp, d) ==> fp.round(fp.shortest(d)) == Some(d))
  }

  predicate Signed64(n: int) {
    -0x8000_0000_0000_0000 <= n < 0x8000_0000_0000_0000
  }

  // ----- the conversions -----

  /** json_to_dynamic; None is any error. */
  function ToDynamic(fp: Doubles, v: Json, depth: nat): Option<Dynamic>
    decreases v
  {
    if depth > MAX_DEPTH then None
    else
      match v
      case Null => Some(Unit)
      case Bool(b) => Some(Truth(b))
      case Text(s) => Some(Str(s))
      case Num(Integral(n)) => if Signed64(n) then Some(Int(n)) else None
      case Num(Fractional(r)) => if fp.round(r).Some? then Some(Float(fp.round(r))) else None
      case List(items) =>
        if |items| <= MAX_ITEMS && forall i :: 0 <= i < |items| ==> ToDynamic(fp, items[i], depth + 1).Some?
        then Some(Array(seq(|items|, i requires 0 <= i < |items| && ToDynamic(fp, items[i], depth + 1).Some? =>
                                       ToDynamic(fp, items[i], depth + 1).value)))
        else None
      case Object(fields) =>
        if |fields| <= MAX_FIELDS && forall k :: k in fields ==> ToDynamic(fp, fields[k], depth + 1).Some?
        then Some(Map(map k | k in fields :: ToDynamic(fp, fields[k], depth + 1).value))
        else None
  }

  /** dynamic_to_json */
  function ToJson(fp: Doubles, d: Dynamic, depth: nat): Option<Json>
    decreases d
  {
    if depth > MAX_DEPTH then None
    else
      match d
      case Unit => Some(Null)
      case Truth(b) => Some(Bool(b))
      case Int(n) => Some(Num(Integral(n)))
      case Float(f) => if f.Some? then Some(Num(Fractional(fp.shortest(f.value)))) else None
      case Str(s) => Some(Text(s))
      case Array(elements) =>
        if forall i :: 0 <= i < |elements| ==> ToJson(fp, elements[i], depth + 1).Some?
        then Some(List(seq(|elements|, i requires 0 <= i < |elements| && ToJson(fp, elements[i], depth + 1).Some? =>
                                         ToJson(fp, elements[i], depth + 1).value)))
        else None
      case Map(entries) =>
        if forall k :: k in entries ==> ToJson(fp, entries[k], depth + 1).Some?
        then Some(Object(map k | k in entries :: ToJson(fp, entries[k], depth + 1).value))
        else None
      case Other => None
  }

  // ----- what is accepted -----

  predicate Child(c: Json, v: Json) {
    || (v.List? && c in v.items)
    || (v.Object? && exists k :: k in v.fields && v.fields[k] == c)
  }

  /** x occurs in v, n levels down. */
  ghost predicate Occurs(x: Json, v: Json, n: nat) {
    if n == 0 then x == v else exists c :: Child(c, v) && Occurs(x, c, n - 1)
  }

  /** What is asked of a value apart from what it contains. */
  predicate Local(fp: Doubles, x: Json) {
    match x
    case Num(Integral(n)) => Signed64(n)
    case Num(Fractional(r)) => fp.round(r).Some?
    case List(items) => |items| <= 100_000
    case Object(fields) => |fields| <= 10_000
    case _ => true
  }

  ghost predicate Acceptable(fp: Doubles, v: Json, depth: nat) {
    forall x, n :: Occurs(x, v, n) ==> depth + n <= 64 && Local(fp, x)
  }

  lemma AcceptableParts(fp: Doubles, v: Json, depth: nat)
    ensures Acceptable(fp, v, depth) <==>
              depth <= MAX_DEPTH && Local(fp, v) && forall c :: Child(c, v) ==> Acceptable(fp, c, depth + 1)
  {
    if Acceptable(fp, v, depth) {
      assert Occurs(v, v, 0);
      forall c, x, n: nat | Child(c, v) && Occurs(x, c, n)
        ensures depth + 1 + n <= MAX_DEPTH && Local(fp, x)
      {
        assert Occurs(x, v, n + 1);
      }
    }
    if depth <= MAX_DEPTH && Local(fp, v) && forall c :: Child(c, v) ==> Acceptable(fp, c, depth + 1) {
      forall x, n: nat | Occurs(x, v, n)
        ensures depth + n <= MAX_DEPTH && Local(fp, x)
      {
        if n > 0 {
          var c :| Child(c, v) && Occurs(x, c, n - 1);
          assert Acceptable(fp, c, depth + 1);
        }
      }
    }
  }

  /** Converting succeeds exactly when every value inside is shallow, small and representable. */
  lemma {:induction false} AcceptedExactly(fp: Doubles, v: Json, depth: nat)
    ensures ToDynamic(fp, v, depth).Some? <==> Acceptable(fp, v, depth)
    decreases v
  {
    hide Acceptable;
    AcceptableParts(fp, v, depth);
    match v
    case List(items) =>
      forall i | 0 <= i < |items|
        ensures ToDynamic(fp, items[i], depth + 1).Some? <==> Acceptable(fp, items[i], depth + 1)
        ensures Child(items[i], v)
      {
        AcceptedExactly(fp, items[i], depth + 1);
      }
    case Object(fields) =>
      forall k | k in fields
        ensures ToDynamic(fp, fields[k], depth + 1).Some? <==> Acceptable(fp, fields[k], depth + 1)
        ensures Child(fields[k], v)
      {
        AcceptedExactly(fp, fields[k], depth + 1);
      }
    case _ =>
  }

  // ----- there and back -----

  /** Equal but for fractions that are the same double. */
  ghost predicate Same(fp: Doubles, v: Json, w: Json)
    decreases v
  {
    match v
    case Num(Fractional(r)) => w.Num? && w.number.Fractional? && fp.round(r) == fp.round(w.number.r)
    case List(items) =>
      w.List? && |w.items| == |items| && forall i :: 0 <= i < |items| ==> Same(fp, items[i], w.items[i])
    case Object(fields) =>
      w.Object? && w.fields.Keys == fields.Keys && forall k :: k in fields ==> Same(fp, fields[k], w.fields[k])
    case _ => w == v
  }

  /** An accepted value comes back, its fractions as the same doubles. */
  lemma {:induction false} RoundTrip(fp: Doubles, v: Json, depth: nat)
    requires Lawful(fp) && ToDynamic(fp, v, depth).Some?
    ensures ToJson(fp, ToDynamic(fp, v, depth).value, depth).Some?
    ensures Same(fp, v, ToJson(fp, ToDynamic(fp, v, depth).value, depth).value)
    decreases v
  {
    match v
    case List(items) =>
      forall i | 0 <= i < |items|
        ensures var d := ToDynamic(fp, items[i], depth + 1).value;
                ToJson(fp, d, depth + 1).Some? && Same(fp, items[i], ToJson(fp, d, depth + 1).value)
      {
        RoundTrip(fp, items[i], depth + 1);
      }
    case Object(fields) =>
      forall k | k in fields
        ensures var d := ToDynamic(fp, fields[k], depth + 1).value;
                ToJson(fp, d, depth + 1).Some? && Same(fp, fields[k], ToJson(fp, d, depth + 1).value)
      {
        RoundTrip(fp, fields[k], depth + 1);
      }
    case _ =>
  }

  /** The number is written the shortest way its double can be. */
  predicate Canonical(fp: Doubles, x: Json) {
    x.Num? && x.number.Fractional? && fp.round(x.number.r).Some? ==>
      fp.shortest(fp.round(x.number.r).value) == x.number.r
  }

  ghost predicate AllCanonical(fp: Doubles, v: Json) {
    forall x, n :: Occurs(x, v, n) ==> Canonical(fp, x)
  }

  lemma CanonicalParts(fp: Doubles, v: Json)
    ensures AllCanonical(fp, v) <==> Canonical(fp, v) && forall c :: Child(c, v) ==> AllCanonical(fp, c)
  {
    if AllCanonical(fp, v) {
      assert Occurs(v, v, 0);
      forall c, x, n: nat | Child(c, v) && Occurs(x, c, n)
        ensures Canonical(fp, x)
      {
        assert Occurs(x, v, n + 1);
      }
    }
    if Canonical(fp, v) && forall c :: Child(c, v) ==> AllCanonical(fp, c) {
      forall x, n: nat | Occurs(x, v, n)
        ensures Canonical(fp, x)
      {
        if n > 0 {
          var c :| Child(c, v) && Occurs(x, c, n - 1);
          assert AllCanonical(fp, c);
        }
      }
    }
  }

  /** What the conversion to a script value and back makes of an accepted value. */
  function Back(fp: Doubles, v: Json, depth: nat): Option<Json> {
    match ToDynamic(fp, v, depth)
    case None => None
    case Some(d) => ToJson(fp, d, depth)
  }

  lemma BackList(fp: Doubles, items: seq<Json>, depth: nat)
    requires Lawful(fp) && ToDynamic(fp, List(items), depth).Some?
    ensures var w := Back(fp, List(items), depth);
            && w.Some? && w.value.List? && |w.value.items| == |items|
            && forall i :: 0 <= i < |items| ==>
                 && ToDynamic(fp, items[i], depth + 1).Some?
                 && Back(fp, items[i], depth + 1) == Some(w.value.items[i])
  {
    RoundTrip(fp, List(items), depth);
  }

  lemma BackObject(fp: Doubles, fields: map<string, Json>, depth: nat)
    requires Lawful(fp) && ToDynamic(fp, Object(fields), depth).Some?
    ensures var w := Back(fp, Object(fields), depth);
            && w.Some? && w.value.Object? && w.value.fields.Keys == fields.Keys
            && forall k :: k in fields ==>
                 && ToDynamic(fp, fields[k], depth + 1).Some?
                 && Back(fp, fields[k], depth + 1) == Some(w.value.fields[k])
  {
    RoundTrip(fp, Object(fields), depth);
  }

  lemma BackScalar(fp: Doubles, v: Json, depth: nat)
    requires !v.List? && !v.Object? && ToDynamic(fp, v, depth).Some?
    ensures Back(fp, v, depth) == Some(v) <==> AllCanonical(fp, v)
  {
    CanonicalParts(fp, v);
  }

  /** Not a digit is lost exactly when every fraction is canonical. */
  lemma {:induction false} ExactRoundTrip(fp: Doubles, v: Json, depth: nat)
    requires Lawful(fp) && ToDynamic(fp, v, depth).Some?
    ensures Back(fp, v, depth) == Some(v) <==> AllCanonical(fp, v)
    decreases v
  {
    hide AllCanonical, Lawful, Back, ToDynamic;
    CanonicalParts(fp, v);
    match v
    case List(items) =>
      BackList(fp, items, depth);
      var w := Back(fp, v, depth).value;
      forall i | 0 <= i < |items|
        ensures w.items[i] == items[i] <==> AllCanonical(fp, items[i])
        ensures Child(items[i], v)
      {
        ExactRoundTrip(fp, items[i], depth + 1);
      }
      assert w == v <==> forall i :: 0 <= i < |items| ==> w.items[i] == items[i];
    case Object(fields) =>
      BackObject(fp, fields, depth);
      var w := Back(fp, v, depth).value;
      forall k | k in fields
        ensures w.fields[k] == fields[k] <==> AllCanonical(fp, fields[k])
        ensures Child(fields[k], v)
      {
        ExactRoundTrip(fp, fields[k], depth + 1);
      }
      assert w == v <==> forall k :: k in fields ==> w.fields[k] == fields[k];
    case _ =>
      BackScalar(fp, v, depth);
  }

  // The double nearest to 0.1, written out.
  const NEAR_TENTH := 0.1000000000000000055511151231257827021181583404541015625

  /** A fraction with more digits than a double needs comes back shorter. */
  lemma DigitsLost(fp: Doubles)
    requires fp.round(NEAR_TENTH) == Some(NEAR_TENTH) && fp.shortest(NEAR_TENTH) == 0.1
    ensures Back(fp, Num(Fractional(NEAR_TENTH)), 0) == Some(Num(Fractional(0.1)))
    ensures Num(Fractional(0.1)) != Num(Fractional(NEAR_TENTH))
  {}

  // ----- the other way round -----

  /** A value that a script can hold: its integers have 64 bits, and its doubles are doubles. */
  ghost predicate Holdable(fp: Doubles, d: Dynamic)
    decreases d
  {
    match d
    case Int(n) => Signed64(n)
    case Float(f) => f.Some? ==> IsDouble(fp, f.value)
    case Array(elements) => forall i :: 0 <= i < |elements| ==> Holdable(fp, elements[i])
    case Map(entries) => forall k :: k in entries ==> Holdable(fp, entries[k])
    case _ => true
  }

  /** No array or map inside is too large to be read back. */
  ghost predicate Sized(d: Dynamic)
    decreases d
  {
    match d
    case Array(elements) => |elements| <= 100_000 && forall i :: 0 <= i < |elements| ==> Sized(elements[i])
    case Map(entries) => |entries| <= 10_000 && forall k :: k in entries ==> Sized(entries[k])
    case _ => true
  }

  /** A document that a script produced reads back as the very same script value, if its size allows. */
  lemma {:induction false} ScriptRoundTrip(fp: Doubles, d: Dynamic, depth: nat)
    requires Lawful(fp) && Holdable(fp, d) && ToJson(fp, d, depth).Some?
    ensures ToDynamic(fp, ToJson(fp, d, depth).value, depth) == if Sized(d) then Some(d) else None
    decreases d
  {
    match d
    case Array(elements) =>
      forall i | 0 <= i < |elements|
        ensures var v := ToJson(fp, elements[i], depth + 1).value;
                ToDynamic(fp, v, depth + 1) == if Sized(elements[i]) then Some(elements[i]) else None
      {
        ScriptRoundTrip(fp, elements[i], depth + 1);
      }
      ArrayBack(fp, elements, depth);
    case Map(entries) =>
      forall k | k in entries
        ensures var v := ToJson(fp, entries[k], depth + 1).value;
                ToDynamic(fp, v, depth + 1) == if Sized(entries[k]) then Some(entries[k]) else None
      {
        ScriptRoundTrip(fp, entries[k], depth + 1);
      }
      MapBack(fp, entries, depth);
    case _ =>
  }

  lemma ArrayBack(fp: Doubles, elements: seq<Dynamic>, depth: nat)
    requires ToJson(fp, Array(elements), depth).Some?
    requires forall i :: 0 <= i < |elements| ==>
               ToDynamic(fp, ToJson(fp, elements[i], depth + 1).value, depth + 1)
               == if Sized(elements[i]) then Some(elements[i]) else None
    ensures ToDynamic(fp, ToJson(fp, Array(elements), depth).value, depth)
         == if Sized(Array(elements)) then Some(Array(elements)) else None
  {
    var v := ToJson(fp, Array(elements), depth).value;
    if Sized(Array(elements)) {
      assert ToDynamic(fp, v, depth).Some?;
      assert ToDynamic(fp, v, depth).value.elements == elements;
    } else if |elements| <= MAX_ITEMS {
      var i :| 0 <= i < |elements| && !Sized(elements[i]);
      assert ToDynamic(fp, v.items[i], depth + 1).None?;
    }
  }

  lemma MapBack(fp: Doubles, entries: map<string, Dynamic>, depth: nat)
    requires ToJson(fp, Map(entries), depth).Some?
    requires forall k :: k in entries ==>
               ToDynamic(fp, ToJson(fp, entries[k], depth + 1).value, depth + 1)
               == if Sized(entries[k]) then Some(entries[k]) else None
    ensures ToDynamic(fp, ToJson(fp, Map(entries), depth).value, depth)
         == if Sized(Map(entries)) then Some(Map(entries)) else None
  {
    var v := ToJson(fp, Map(entries), depth).value;
    assert v.fields.Keys == entries.Keys;
    assert |v.fields| == |v.fields.Keys| && |entries| == |entries.Keys|;
    if Sized(Map(entries)) {
      assert ToDynamic(fp, v, depth).Some?;
      assert ToDynamic(fp, v, depth).value.entries == entries;
    } else if |entries| <= MAX_FIELDS {
      var k :| k in entries && !Sized(entries[k]);
      assert ToDynamic(fp, v.fields[k], depth + 1).None?;
    }
  }

  // ----- which value stands for which -----

  /** The script value that a JSON value is: of the same kind, a fraction as its double. */
  ghost predicate Stands(fp: Doubles, v: Json, d: Dynamic)
    decreases v
  {
    match v
    case Null => d == Unit
    case Bool(b) => d == Truth(b)
    case Text(s) => d == Str(s)
    case Num(Integral(n)) => d == Int(n)
    case Num(Fractional(r)) => d.Float? && d.f.Some? && fp.round(r) == d.f
    case List(items) =>
      d.Array? && |d.elements| == |items| && forall i :: 0 <= i < |items| ==> Stands(fp, items[i], d.elements[i])
    case Object(fields) =>
      d.Map? && d.entries.Keys == fields.Keys && forall k :: k in fields ==> Stands(fp, fields[k], d.entries[k])
  }

  /** What a script sees of an accepted JSON value. */
  lemma {:induction false} SeenAs(fp: Doubles, v: Json, depth: nat)
    requires ToDynamic(fp, v, depth).Some?
    ensures Stands(fp, v, ToDynamic(fp, v, depth).value)
    decreases v
  {
    match v
    case List(items) =>
      forall i | 0 <= i < |items|
        ensures Stands(fp, items[i], ToDynamic(fp, items[i], depth + 1).value)
      {
        SeenAs(fp, items[i], depth + 1);
      }
    case Object(fields) =>
      forall k | k in fields
        ensures Stands(fp, fields[k], ToDynamic(fp, fields[k], depth + 1).value)
      {
        SeenAs(fp, fields[k], depth + 1);
      }
    case _ =>
  }

  /** What becomes of a script value in a document. */
  lemma {:induction false} ShownAs(fp: Doubles, d: Dynamic, depth: nat)
    requires Lawful(fp) && Holdable(fp, d) && ToJson(fp, d, depth).Some?
    ensures Stands(fp, ToJson(fp, d, depth).value, d)
    decreases d
  {
    match d
    case Array(elements) =>
      forall i | 0 <= i < |elements|
        ensures Stands(fp, ToJson(fp, elements[i], depth + 1).value, elements[i])
      {
        ShownAs(fp, elements[i], depth + 1);
      }
    case Map(entries) =>
      forall k | k in entries
        ensures Stands(fp, ToJson(fp, entries[k], depth + 1).value, entries[k])
      {
        ShownAs(fp, entries[k], depth + 1);
      }
    case _ =>
  }
}
