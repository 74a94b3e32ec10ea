/**
  Unit-bearing knowledge literals: the fixed registry, the validator, and the
  in-place canonicalization of a whole patch. What canonicalization writes, the
  validator accepts; what the validator accepts is the registry conversion up
  to the projection's rounding.
 */
module KnowledgeUnits {
  import opened Wrappers
  import opened Text
  import opened DecimalRational
  import opened UnitProjection

  const REGISTRY_V1 := "unit_registry_v1"

  /** SI = source * factor + offset. */
  datatype UnitDefinition = UnitDefinition(dimension: string, siUnit: string, factor: real, offset: real)

  const UNIT_REGISTRY: map<string, UnitDefinition> := map[
    "1" := UnitDefinition("dimensionless", "1", 1.0, 0.0),
    "m" := UnitDefinition("length", "m", 1.0, 0.0),
    "mm" := UnitDefinition("length", "m", 0.001, 0.0),
    "cm" := UnitDefinition("length", "m", 0.01, 0.0),
    "km" := UnitDefinition("length", "m", 1000.0, 0.0),
    "m2" := UnitDefinition("area", "m2", 1.0, 0.0),
    "m²" := UnitDefinition("area", "m2", 1.0, 0.0),
    "mm2" := UnitDefinition("area", "m2", 0.000001, 0.0),
    "mm²" := UnitDefinition("area", "m2", 0.000001, 0.0),
    "cm2" := UnitDefinition("area", "m2", 0.0001, 0.0),
    "cm²" := UnitDefinition("area", "m2", 0.0001, 0.0),
    "km2" := UnitDefinition("area", "m2", 1000000.0, 0.0),
    "km²" := UnitDefinition("area", "m2", 1000000.0, 0.0),
    "kg" := UnitDefinition("mass", "kg", 1.0, 0.0),
    "g" := UnitDefinition("mass", "kg", 0.001, 0.0),
    "s" := UnitDefinition("time", "s", 1.0, 0.0),
    "ms" := UnitDefinition("time", "s", 0.001, 0.0),
    "min" := UnitDefinition("time", "s", 60.0, 0.0),
    "h" := UnitDefinition("time", "s", 3600.0, 0.0),
    "m/s" := UnitDefinition("speed", "m/s", 1.0, 0.0),
    "km/h" := UnitDefinition("speed", "m/s", 5.0 / 18.0, 0.0),
    "Pa" := UnitDefinition("pressure", "Pa", 1.0, 0.0),
    "kPa" := UnitDefinition("pressure", "Pa", 1000.0, 0.0),
    "MPa" := UnitDefinition("pressure", "Pa", 1000000.0, 0.0),
    "rad" := UnitDefinition("angle", "rad", 1.0, 0.0),
    "deg" := UnitDefinition("angle", "rad", 0.017453292519943295, 0.0),
    "K" := UnitDefinition("temperature", "K", 1.0, 0.0),
    "C" := UnitDefinition("temperature", "K", 1.0, 273.15),
    "°C" := UnitDefinition("temperature", "K", 1.0, 273.15)
  ]

  const DIMENSIONED_DATATYPES: map<string, string> := map[
    "aetherops:length" := "length",
    "aetherops:area" := "area",
    "aetherops:mass" := "mass",
    "aetherops:time" := "time",
    "aetherops:speed" := "speed",
    "aetherops:pressure" := "pressure",
    "aetherops:angle" := "angle",
    "aetherops:temperature" := "temperature"
  ]

  const NUMERIC_NAMES: set<string> := {
    "decimal", "double", "float", "integer", "int", "long", "short", "byte",
    "nonnegativeinteger", "nonpositiveinteger", "positiveinteger", "negativeinteger",
    "unsignedlong", "unsignedint", "unsignedshort", "unsignedbyte"
  }

  /** What follows the last '#' or ':', or the whole string. */
  function LocalName(s: string): string {
    if s == "" || s[|s| - 1] == '#' || s[|s| - 1] == ':' then ""
    else LocalName(s[..|s| - 1]) + [s[|s| - 1]]
  }

  /** `isNumericKnowledgeDatatype`. */
  predicate IsNumericDatatype(datatypeName: string) {
    LocalName(Lower(TrimSpace(datatypeName))) in NUMERIC_NAMES
  }

  /** A local name: neither of the separators, no space at its ends. */
  predicate IsLocal(name: string) {
    && name != "" && (forall i | 0 <= i < |name| :: name[i] != '#' && name[i] != ':')
    && !IsSpace(name[0]) && !IsSpace(name[|name| - 1])
  }

  lemma {:induction false} LocalNameOf(prefix: string, name: string)
    requires forall i | 0 <= i < |name| :: name[i] != '#' && name[i] != ':'
    requires prefix == "" || prefix[|prefix| - 1] == '#' || prefix[|prefix| - 1] == ':'
    ensures LocalName(prefix + name) == name
    decreases |name|
  {
    var s := prefix + name;
    if name == "" {
      assert s == prefix;
    } else {
      LocalNameOf(prefix, name[..|name| - 1]);
      assert s[..|s| - 1] == prefix + name[..|name| - 1] && s[|s| - 1] == name[|name| - 1];
      assert name == name[..|name| - 1] + [name[|name| - 1]];
    }
  }

  /** A datatype is numeric by its local name alone, in any case and behind any prefix. */
  lemma NumericByLocalName(prefix: string, name: string)
    requires IsLocal(name)
    requires prefix == "" || (!IsSpace(prefix[0]) && (prefix[|prefix| - 1] == '#' || prefix[|prefix| - 1] == ':'))
    ensures IsNumericDatatype(prefix + name) <==> Lower(name) in NUMERIC_NAMES
  {
    var s := prefix + name;
    assert s[0] == (if prefix == "" then name[0] else prefix[0]) && s[|s| - 1] == name[|name| - 1];
    assert TrimSpace(s) == s;
    assert Lower(s) == Lower(prefix) + Lower(name);
    LocalNameOf(Lower(prefix), Lower(name));
  }

  /** The numeric types of XML Schema: the four general ones, the signs of integers, and four widths, signed or not. */
  lemma NumericNames()
    ensures NUMERIC_NAMES ==
            {"decimal", "double", "float", "integer", "long", "int", "short", "byte"}
            + Signs("integer") + Unsigned("long") + Unsigned("int") + Unsigned("short") + Unsigned("byte")
  {
    assert "positive" + "integer" == "positiveinteger" && "negative" + "integer" == "negativeinteger";
    assert "nonpositive" + "integer" == "nonpositiveinteger" && "nonnegative" + "integer" == "nonnegativeinteger";
    assert "unsigned" + "long" == "unsignedlong" && "unsigned" + "int" == "unsignedint";
    assert "unsigned" + "short" == "unsignedshort" && "unsigned" + "byte" == "unsignedbyte";
  }

  function Signs(name: string): set<string> {
    {"positive" + name, "negative" + name, "nonpositive" + name, "nonnegative" + name}
  }

  function Unsigned(name: string): set<string> {
    {"unsigned" + name}
  }

  datatype Literal = Literal(lexicalForm: string, datatypeName: string, unit: string, siValue: string, siUnit: string)

  datatype UnitError =
    | UnsupportedRegistry
    | NonFinite
    | UnitRequired
    | UnexpectedProjection
    | NotDecimal
    | UnsupportedUnit
    | NotNumericOrDimensioned
    | WrongDimension
    | ProjectionRequired
    | WrongSIUnit
    | WrongProjection

  function Convert(definition: UnitDefinition, source: real): real {
    source * definition.factor + definition.offset
  }

  /** `validateKnowledgeUnitProjection`. */
  function Validate(literal: Literal, version: string): Result<(), UnitError> {
    var dimensioned := literal.datatypeName in DIMENSIONED_DATATYPES;
    if version != REGISTRY_V1 then Err(UnsupportedRegistry)
    else if IsNonFinite(literal.lexicalForm) || IsNonFinite(literal.siValue) then Err(NonFinite)
    else if literal.unit == "" then
      if dimensioned then Err(UnitRequired)
      else if literal.siValue != "" || literal.siUnit != "" then Err(UnexpectedProjection)
      else if IsNumericDatatype(literal.datatypeName) && ParseDecimal(literal.lexicalForm).None? then Err(NotDecimal)
      else Ok(())
    else if literal.unit !in UNIT_REGISTRY then Err(UnsupportedUnit)
    else
      var definition := UNIT_REGISTRY[literal.unit];
      if !dimensioned && !IsNumericDatatype(literal.datatypeName) then Err(NotNumericOrDimensioned)
      else if dimensioned && definition.dimension != DIMENSIONED_DATATYPES[literal.datatypeName] then
        Err(WrongDimension)
      else if literal.siValue == "" || literal.siUnit == "" then Err(ProjectionRequired)
      else if literal.siUnit != definition.siUnit then Err(WrongSIUnit)
      else
        match (ParseDecimal(literal.lexicalForm), ParseDecimal(literal.siValue))
        case (Some(source), Some(actual)) =>
          var expected := Convert(definition, source);
          if expected != actual && TrimSpace(literal.siValue) != Projection(expected) then Err(WrongProjection)
          else Ok(())
        case _ => Err(NotDecimal)
  }

  /** One literal canonicalized: a value without a unit is left alone. */
  function Canonicalized(literal: Literal): Result<Literal, UnitError> {
    if literal.unit == "" then Ok(literal)
    else if literal.unit !in UNIT_REGISTRY then Err(UnsupportedUnit)
    else
      var definition := UNIT_REGISTRY[literal.unit];
      if literal.siUnit != "" && literal.siUnit != definition.siUnit then Err(WrongSIUnit)
      else
        match ParseDecimal(literal.lexicalForm)
        case None => Err(NotDecimal)
        case Some(source) =>
          Ok(literal.(siValue := Projection(Convert(definition, source)), siUnit := definition.siUnit))
  }

  /** The unit fits the datatype: its dimension for a dimensioned one, any unit for a numeric one. */
  predicate Compatible(literal: Literal) {
    literal.unit in UNIT_REGISTRY &&
    if literal.datatypeName in DIMENSIONED_DATATYPES
    then UNIT_REGISTRY[literal.unit].dimension == DIMENSIONED_DATATYPES[literal.datatypeName]
    else IsNumericDatatype(literal.datatypeName)
  }

  lemma RegistryUnitsNamed(unit: string)
    requires unit in UNIT_REGISTRY
    ensures UNIT_REGISTRY[unit].siUnit != ""
  {
    assert forall u | u in UNIT_REGISTRY :: UNIT_REGISTRY[u].siUnit != "";
  }

  /** A finite decimal is not one of the non-finite words. */
  lemma DecimalIsFinite(raw: string)
    requires ParseDecimal(raw).Some?
    ensures !IsNonFinite(raw)
  {
    hide Matches, Mantissa, Scaled, IndexOfMarker, TrimSpace, Atoi;
    var n := MatchedNumeral(TrimSpace(raw));
    TrimOfRender(n);
    assert TrimSpace(TrimSpace(raw)) == TrimSpace(raw);
  }

  /** What canonicalization writes, the validator accepts, whenever the unit fits the datatype. */
  lemma CanonicalizedPassesValidation(literal: Literal)
    requires literal.unit != "" && Compatible(literal) && Canonicalized(literal).Ok?
    ensures Validate(Canonicalized(literal).value, REGISTRY_V1) == Ok(())
  {
    hide ParseDecimal, Projection, Rounded, IsNonFinite, TrimSpace, IsNumericDatatype;
    var result := Canonicalized(literal).value;
    var expected := Convert(UNIT_REGISTRY[literal.unit], ParseDecimal(literal.lexicalForm).value);
    RegistryUnitsNamed(literal.unit);
    ProjectionRoundTrip(expected);
    ProjectionSign(expected);
    DecimalIsFinite(literal.lexicalForm);
    DecimalIsFinite(result.siValue);
    ProjectionTrimmed(expected);
  }

  lemma ProjectionTrimmed(x: real)
    ensures TrimSpace(Projection(x)) == Projection(x)
  {
    hide Projection, TrimSpace, Numeral.Render, UnitsNumeral;
    ProjectionText(x);
    TrimOfRender(UnitsNumeral(x < 0.0 && RoundedUnits(x) > 0, RoundedUnits(x)));
  }

  /**
    An accepted unit-bearing literal states factor times its value plus offset,
    or the rounding of that to 18 decimals, hence a value within half of 10^-18.
   */
  lemma AcceptedIsConversion(literal: Literal)
    requires literal.unit != "" && Validate(literal, REGISTRY_V1).Ok?
    ensures Compatible(literal) && literal.siUnit == UNIT_REGISTRY[literal.unit].siUnit
    ensures ParseDecimal(literal.lexicalForm).Some? && ParseDecimal(literal.siValue).Some?
    ensures var definition := UNIT_REGISTRY[literal.unit];
            var expected := ParseDecimal(literal.lexicalForm).value * definition.factor + definition.offset;
            var actual := ParseDecimal(literal.siValue).value;
            && (actual == expected || actual == Rounded(expected))
            && Magnitude(actual - expected) <= 0.5 / UNIT as real
  {
    hide ParseDecimal, Projection, Rounded, TrimSpace, IsNonFinite, IsNumericDatatype;
    var expected := Convert(UNIT_REGISTRY[literal.unit], ParseDecimal(literal.lexicalForm).value);
    RoundedIsNearest(expected);
    if TrimSpace(literal.siValue) == Projection(expected) {
      ProjectionRoundTrip(expected);
      ParseIgnoresSpace(literal.siValue);
    }
  }

  lemma ParseIgnoresSpace(raw: string)
    requires ParseDecimal(raw).Some?
    ensures ParseDecimal(TrimSpace(raw)) == ParseDecimal(raw)
  {
    hide ParseDecimal, TrimSpace, Numeral.Render, Numeral.Value, Numeral.ExponentValue;
    ParseAcceptance(raw);
    var n: Numeral :| n.Valid() && n.Render() == TrimSpace(raw) && -1000 <= n.ExponentValue() <= 1000;
    TrimOfRender(n);
    ParseOfTrimmed(raw, n);
    ParseOfTrimmed(TrimSpace(raw), n);
  }

  /** A conversion that rounding would change is accepted only in its canonical spelling or exactly. */
  lemma AcceptedExactly(literal: Literal)
    requires literal.unit != "" && Compatible(literal)
    requires literal.siUnit == UNIT_REGISTRY[literal.unit].siUnit
    requires ParseDecimal(literal.lexicalForm).Some? && ParseDecimal(literal.siValue).Some?
    ensures var expected := Convert(UNIT_REGISTRY[literal.unit], ParseDecimal(literal.lexicalForm).value);
            Validate(literal, REGISTRY_V1).Ok? <==>
            ParseDecimal(literal.siValue).value == expected || TrimSpace(literal.siValue) == Projection(expected)
  {
    hide Projection, TrimSpace, IsNonFinite, IsNumericDatatype;
    RegistryUnitsNamed(literal.unit);
    DecimalIsFinite(literal.lexicalForm);
    DecimalIsFinite(literal.siValue);
    assert literal.siValue != "" by {
      EmptyIsNotDecimal();
    }
  }

  lemma EmptyIsNotDecimal()
    ensures ParseDecimal("").None?
  {
  }

  /**
    The acceptance of any literal. Without a unit it must claim no SI value and
    be no dimensioned quantity, and a numeric one must be a number; with a unit
    that fits, it must state factor times its value plus offset, exactly or in
    its canonical text.
   */
  lemma AcceptedLiterals(literal: Literal, version: string)
    ensures Validate(literal, version).Ok? <==>
            && version == "unit_registry_v1" && !IsNonFinite(literal.lexicalForm) && !IsNonFinite(literal.siValue)
            && if literal.unit == "" then
                 && literal.datatypeName !in DIMENSIONED_DATATYPES && literal.siValue == literal.siUnit == ""
                 && (IsNumericDatatype(literal.datatypeName) ==> ParseDecimal(literal.lexicalForm).Some?)
               else
                 && Compatible(literal) && literal.siUnit == UNIT_REGISTRY[literal.unit].siUnit
                 && ParseDecimal(literal.lexicalForm).Some? && ParseDecimal(literal.siValue).Some?
                 && var definition := UNIT_REGISTRY[literal.unit];
                    var expected := ParseDecimal(literal.lexicalForm).value * definition.factor + definition.offset;
                    || ParseDecimal(literal.siValue).value == expected
                    || TrimSpace(literal.siValue) == Projection(expected)
  {
    hide Projection, TrimSpace, IsNonFinite, IsNumericDatatype, ParseDecimal;
    if literal.unit in UNIT_REGISTRY {
      RegistryUnitsNamed(literal.unit);
    }
    assert ParseDecimal("").None? by {
      EmptyIsNotDecimal();
    }
  }

  /** Each error of the validator names a cause that is there. */
  lemma ErrorsNameTheirCause(literal: Literal, version: string)
    requires Validate(literal, version).Err?
    ensures var unit, dimensioned := literal.unit, literal.datatypeName in DIMENSIONED_DATATYPES;
            match Validate(literal, version).error
            case UnsupportedRegistry => version != "unit_registry_v1"
            case NonFinite => IsNonFinite(literal.lexicalForm) || IsNonFinite(literal.siValue)
            case UnitRequired => unit == "" && dimensioned
            case UnexpectedProjection => unit == "" && !(literal.siValue == literal.siUnit == "")
            case NotDecimal =>
              if unit == "" then IsNumericDatatype(literal.datatypeName) && ParseDecimal(literal.lexicalForm).None?
              else ParseDecimal(literal.lexicalForm).None? || ParseDecimal(literal.siValue).None?
            case UnsupportedUnit => unit != "" && unit !in UNIT_REGISTRY
            case NotNumericOrDimensioned => unit != "" && !dimensioned && !IsNumericDatatype(literal.datatypeName)
            case WrongDimension =>
              unit in UNIT_REGISTRY && dimensioned
              && UNIT_REGISTRY[unit].dimension != DIMENSIONED_DATATYPES[literal.datatypeName]
            case ProjectionRequired => unit != "" && (literal.siValue == "" || literal.siUnit == "")
            case WrongSIUnit =>
              && literal.siValue != "" && literal.siUnit != ""
              && unit in UNIT_REGISTRY && literal.siUnit != UNIT_REGISTRY[unit].siUnit
            case WrongProjection =>
              && unit in UNIT_REGISTRY && ParseDecimal(literal.lexicalForm).Some? && ParseDecimal(literal.siValue).Some?
              && var definition := UNIT_REGISTRY[unit];
                 ParseDecimal(literal.siValue).value !=
                 ParseDecimal(literal.lexicalForm).value * definition.factor + definition.offset
  {
    hide IsNonFinite, ParseDecimal, Projection, TrimSpace, IsNumericDatatype, UNIT_REGISTRY, DIMENSIONED_DATATYPES;
  }

  /** si is factor times the value plus offset, up to half of 10^-18. */
  predicate States(definition: UnitDefinition, value: real, si: real) {
    Magnitude(si - (value * definition.factor + definition.offset)) <= 0.5 / UNIT as real
  }

  /** The SI value of a literal states its value in the registry's SI unit. */
  predicate Converted(literal: Literal) {
    && literal.unit in UNIT_REGISTRY && literal.siUnit == UNIT_REGISTRY[literal.unit].siUnit
    && ParseDecimal(literal.lexicalForm).Some? && ParseDecimal(literal.siValue).Some?
    && States(UNIT_REGISTRY[literal.unit], ParseDecimal(literal.lexicalForm).value, ParseDecimal(literal.siValue).value)
  }

  lemma RoundingStates(definition: UnitDefinition, value: real)
    ensures States(definition, value, Rounded(Convert(definition, value)))
  {
    RoundedIsNearest(Convert(definition, value));
  }

  /** What canonicalization writes states the value. */
  lemma CanonicalizedIsConversion(before: Literal, literal: Literal)
    requires before.unit != "" && Canonicalized(before) == Ok(literal)
    ensures Converted(literal)
  {
    hide ParseDecimal, Projection, Rounded, States, UNIT_REGISTRY;
    var definition, value := UNIT_REGISTRY[before.unit], ParseDecimal(before.lexicalForm).value;
    RoundingStates(definition, value);
    ProjectionRoundTrip(Convert(definition, value));
  }

  // The registry

  /** Equal amounts in two units canonicalize to one SI value, of one dimension. */
  ghost predicate SameAmounts(u: string, x: real, v: string, y: real) {
    && u in UNIT_REGISTRY && v in UNIT_REGISTRY
    && UNIT_REGISTRY[u].dimension == UNIT_REGISTRY[v].dimension
    && forall a: Literal, b: Literal | a.unit == u && b.unit == v && a.siUnit == b.siUnit == "" ::
         ParseDecimal(a.lexicalForm) == Some(x) && ParseDecimal(b.lexicalForm) == Some(y) ==>
           && Canonicalized(a).Ok? && Canonicalized(b).Ok?
           && Canonicalized(a).value.siValue == Canonicalized(b).value.siValue
           && Canonicalized(a).value.siUnit == Canonicalized(b).value.siUnit
  }

  lemma Amounts(u: string, x: real, v: string, y: real)
    requires u in UNIT_REGISTRY && v in UNIT_REGISTRY && u != "" && v != ""
    requires UNIT_REGISTRY[u].dimension == UNIT_REGISTRY[v].dimension
    requires UNIT_REGISTRY[u].siUnit == UNIT_REGISTRY[v].siUnit
    requires Convert(UNIT_REGISTRY[u], x) == Convert(UNIT_REGISTRY[v], y)
    ensures SameAmounts(u, x, v, y)
  {
    hide ParseDecimal, Projection;
  }

  /** The units agree with each other as units do, for every amount; no factor is named. */
  lemma LengthsAndAreasAgree(x: real)
    ensures SameAmounts("km", x, "m", 1000.0 * x) && SameAmounts("m", x, "cm", 100.0 * x)
    ensures SameAmounts("cm", x, "mm", 10.0 * x) && SameAmounts("km2", x, "m2", 1000000.0 * x)
    ensures SameAmounts("m2", x, "cm2", 10000.0 * x) && SameAmounts("cm2", x, "mm2", 100.0 * x)
    ensures SameAmounts("m²", x, "m2", x) && SameAmounts("mm²", x, "mm2", x)
    ensures SameAmounts("cm²", x, "cm2", x) && SameAmounts("km²", x, "km2", x)
  {
    hide Canonicalized, SameAmounts;
    Amounts("km", x, "m", 1000.0 * x);
    Amounts("m", x, "cm", 100.0 * x);
    Amounts("cm", x, "mm", 10.0 * x);
    Amounts("km2", x, "m2", 1000000.0 * x);
    Amounts("m2", x, "cm2", 10000.0 * x);
    Amounts("cm2", x, "mm2", 100.0 * x);
    Amounts("m²", x, "m2", x);
    Amounts("mm²", x, "mm2", x);
    Amounts("cm²", x, "cm2", x);
    Amounts("km²", x, "km2", x);
  }

  lemma OtherUnitsAgree(x: real)
    ensures SameAmounts("kg", x, "g", 1000.0 * x) && SameAmounts("s", x, "ms", 1000.0 * x)
    ensures SameAmounts("min", x, "s", 60.0 * x) && SameAmounts("h", x, "min", 60.0 * x)
    ensures SameAmounts("km/h", 36.0 * x, "m/s", 10.0 * x) && SameAmounts("kPa", x, "Pa", 1000.0 * x)
    ensures SameAmounts("MPa", x, "kPa", 1000.0 * x) && SameAmounts("°C", x, "K", x + 273.15)
    ensures SameAmounts("C", x, "°C", x)
  {
    hide Canonicalized, SameAmounts;
    Amounts("kg", x, "g", 1000.0 * x);
    Amounts("s", x, "ms", 1000.0 * x);
    Amounts("min", x, "s", 60.0 * x);
    Amounts("h", x, "min", 60.0 * x);
    Amounts("km/h", 36.0 * x, "m/s", 10.0 * x);
    Amounts("kPa", x, "Pa", 1000.0 * x);
    Amounts("MPa", x, "kPa", 1000.0 * x);
    Amounts("°C", x, "K", x + 273.15);
    Amounts("C", x, "°C", x);
  }

  /** Half a turn in degrees is pi to fifteen places. */
  lemma DegreesAreRadians()
    ensures "deg" in UNIT_REGISTRY && "rad" in UNIT_REGISTRY
    ensures UNIT_REGISTRY["deg"].siUnit == "rad" && UNIT_REGISTRY["deg"].dimension == UNIT_REGISTRY["rad"].dimension
    ensures UNIT_REGISTRY["deg"].offset == 0.0
    ensures Magnitude(180.0 * UNIT_REGISTRY["deg"].factor - 3.141592653589793) <= 0.000000000000001
  {
  }

  /** The coherent SI unit of each dimension. */
  const SI_UNITS: map<string, string> := map[
    "dimensionless" := "1", "length" := "m", "area" := "m2", "mass" := "kg", "time" := "s", "speed" := "m/s",
    "pressure" := "Pa", "angle" := "rad", "temperature" := "K" ]

  predicate MeasuredInSI(definition: UnitDefinition) {
    definition.dimension in SI_UNITS && definition.siUnit == SI_UNITS[definition.dimension]
  }

  lemma SIUnitsOfDimensions()
    ensures "dimensionless" in SI_UNITS && SI_UNITS["dimensionless"] == "1"
    ensures "length" in SI_UNITS && SI_UNITS["length"] == "m" && "area" in SI_UNITS && SI_UNITS["area"] == "m2"
    ensures "mass" in SI_UNITS && SI_UNITS["mass"] == "kg" && "time" in SI_UNITS && SI_UNITS["time"] == "s"
    ensures "speed" in SI_UNITS && SI_UNITS["speed"] == "m/s"
    ensures "pressure" in SI_UNITS && SI_UNITS["pressure"] == "Pa" && "angle" in SI_UNITS && SI_UNITS["angle"] == "rad"
    ensures "temperature" in SI_UNITS && SI_UNITS["temperature"] == "K"
  {
  }

  /** Every unit is measured in the SI unit of its dimension. */
  lemma UnitsAreMeasuredInSI(unit: string)
    requires unit in UNIT_REGISTRY
    ensures MeasuredInSI(UNIT_REGISTRY[unit])
  {
    hide SI_UNITS;
    assert forall u | u in UNIT_REGISTRY :: MeasuredInSI(UNIT_REGISTRY[u]) by {
      SIUnitsOfDimensions();
    }
  }

  /** And the SI units in themselves. */
  lemma SIUnitsStand(x: real)
    ensures Convert(UNIT_REGISTRY["1"], x) == Convert(UNIT_REGISTRY["m"], x) == Convert(UNIT_REGISTRY["m2"], x) == x
    ensures Convert(UNIT_REGISTRY["kg"], x) == Convert(UNIT_REGISTRY["s"], x) == Convert(UNIT_REGISTRY["m/s"], x) == x
    ensures Convert(UNIT_REGISTRY["Pa"], x) == Convert(UNIT_REGISTRY["rad"], x) == Convert(UNIT_REGISTRY["K"], x) == x
  {
  }

  /** A dimensioned datatype is named after its dimension, and every dimension has one. */
  lemma DimensionsAreNamed(name: string)
    ensures name in DIMENSIONED_DATATYPES ==> name == "aetherops:" + DIMENSIONED_DATATYPES[name]
    ensures DIMENSIONED_DATATYPES.Values == SI_UNITS.Keys - {"dimensionless"}
  {
    assert DIMENSIONED_DATATYPES["aetherops:length"] == "length" && DIMENSIONED_DATATYPES["aetherops:area"] == "area";
    assert DIMENSIONED_DATATYPES["aetherops:mass"] == "mass" && DIMENSIONED_DATATYPES["aetherops:time"] == "time";
    assert DIMENSIONED_DATATYPES["aetherops:speed"] == "speed";
    assert DIMENSIONED_DATATYPES["aetherops:pressure"] == "pressure";
    assert DIMENSIONED_DATATYPES["aetherops:angle"] == "angle";
    assert DIMENSIONED_DATATYPES["aetherops:temperature"] == "temperature";
  }

  lemma CanonicalizedAgain(literal: Literal)
    requires Canonicalized(literal).Ok?
    ensures Canonicalized(Canonicalized(literal).value) == Canonicalized(literal)
  {
  }

  // The patch, updated in place

  /** A literal of a patch under construction; several owners may share one. */
  class LiteralCell {
    const lexicalForm: string
    const datatypeName: string
    const unit: string
    var siValue: string
    var siUnit: string

    constructor (value: Literal)
      ensures Value() == value
    {
      lexicalForm := value.lexicalForm;
      datatypeName := value.datatypeName;
      unit := value.unit;
      siValue := value.siValue;
      siUnit := value.siUnit;
    }

    function Value(): Literal
      reads this
    {
      Literal(lexicalForm, datatypeName, unit, siValue, siUnit)
    }

    /** The closure of `CanonicalizeUnitProjections`: on an error nothing is written. */
    method Canonicalize() returns (error: Option<UnitError>)
      modifies this
      ensures match Canonicalized(old(Value()))
              case Ok(value) => error == None && Value() == value
              case Err(e) => error == Some(e) && Value() == old(Value())
      ensures error == None && unit != "" ==> Converted(Value())
    {
      if unit == "" {
        return None;
      }
      if unit !in UNIT_REGISTRY {
        return Some(UnsupportedUnit);
      }
      var definition := UNIT_REGISTRY[unit];
      if siUnit != "" && siUnit != definition.siUnit {
        return Some(WrongSIUnit);
      }
      var source := ParseDecimal(lexicalForm);
      if source.None? {
        return Some(NotDecimal);
      }
      ghost var before := Value();
      siValue := Projection(Convert(definition, source.value));
      siUnit := definition.siUnit;
      CanonicalizedIsConversion(before, Value());
      return None;
    }
  }

  datatype Assertion = Assertion(object_: LiteralCell?, qualifiers: seq<LiteralCell?>)

  datatype Patch = Patch(version: string, assertions: seq<Assertion>)

  /** Every literal an assertion holds, as object or qualifier. */
  function CellsOf(assertion: Assertion): set<LiteralCell> {
    (if assertion.object_ == null then {} else {assertion.object_}) +
    (set q | q in assertion.qualifiers && q != null :: q)
  }

  function Cells(assertions: seq<Assertion>): set<LiteralCell> {
    set a, cell | a in assertions && cell in CellsOf(a) :: cell
  }

  /** What the literals held before anything was written. */
  type Origin = map<LiteralCell, Literal>

  ghost predicate Settled(origin: Origin, cell: LiteralCell)
    requires cell in origin
    reads cell
  {
    Canonicalized(origin[cell]) == Ok(cell.Value())
  }

  /** Every literal is in its canonical form or untouched. */
  ghost predicate Handled(origin: Origin)
    reads origin.Keys
  {
    forall cell | cell in origin :: Settled(origin, cell) || cell.Value() == origin[cell]
  }

  /** One literal, which an earlier owner may have canonicalized already. */
  method CanonicalizeCell(cell: LiteralCell, ghost origin: Origin) returns (error: Option<UnitError>)
    requires cell in origin && Handled(origin)
    modifies cell
    ensures Handled(origin)
    ensures error == match Canonicalized(origin[cell]) case Ok(_) => None case Err(e) => Some(e)
    ensures error.None? ==> Settled(origin, cell)
    ensures old(Settled(origin, cell)) ==> Settled(origin, cell)
  {
    hide Canonicalized;
    if Canonicalized(origin[cell]).Ok? {
      CanonicalizedAgain(origin[cell]);
    }
    error := cell.Canonicalize();
  }

  /** The literals of one assertion, object first. */
  method CanonicalizeAssertion(assertion: Assertion, ghost origin: Origin) returns (error: Option<UnitError>)
    requires CellsOf(assertion) <= origin.Keys && Handled(origin)
    modifies CellsOf(assertion)
    ensures Handled(origin)
    ensures error.None? ==> forall cell | cell in CellsOf(assertion) :: Settled(origin, cell)
    ensures error.Some? ==> exists cell | cell in CellsOf(assertion) :: Canonicalized(origin[cell]) == Err(error.value)
    ensures forall cell | cell in origin && old(Settled(origin, cell)) :: Settled(origin, cell)
  {
    hide Canonicalized, Handled;
    error := None;
    if assertion.object_ != null {
      error := CanonicalizeCell(assertion.object_, origin);
      if error.Some? {
        return;
      }
    }
    var j := 0;
    while j < |assertion.qualifiers|
      invariant 0 <= j <= |assertion.qualifiers|
      invariant error == None && Handled(origin)
      invariant assertion.object_ != null ==> Settled(origin, assertion.object_)
      invariant forall k | 0 <= k < j && assertion.qualifiers[k] != null ::
                  assertion.qualifiers[k] in CellsOf(assertion) && Settled(origin, assertion.qualifiers[k])
      invariant forall cell | cell in origin && old(Settled(origin, cell)) :: Settled(origin, cell)
    {
      var qualifier := assertion.qualifiers[j];
      if qualifier != null {
        assert qualifier in assertion.qualifiers && qualifier in CellsOf(assertion);
        error := CanonicalizeCell(qualifier, origin);
        if error.Some? {
          return;
        }
      }
      j := j + 1;
    }
  }

  /**
    `CanonicalizeUnitProjections`. On success every literal holds its canonical
    form, with the lexical form and unit it came with; on an error some literal
    cannot be canonicalized, and each literal holds its canonical form or is
    untouched.
   */
  method CanonicalizeUnitProjections(patch: Patch) returns (error: Option<UnitError>, ghost origin: Origin)
    modifies Cells(patch.assertions)
    ensures origin == old(map cell | cell in Cells(patch.assertions) :: cell.Value())
    ensures error.None? ==> patch.version == REGISTRY_V1
    ensures error.None? ==> forall cell | cell in Cells(patch.assertions) :: Settled(origin, cell)
    ensures error.None? ==> PatchValid(patch, origin)
    ensures error.Some? ==> patch.version != REGISTRY_V1 ||
                            exists cell | cell in Cells(patch.assertions) ::
                              Canonicalized(origin[cell]) == Err(error.value)
    ensures Handled(origin)
  {
    hide Canonicalized, CellsOf;
    error := None;
    origin := map cell | cell in Cells(patch.assertions) :: cell.Value();
    if patch.version != REGISTRY_V1 {
      error := Some(UnsupportedRegistry);
      return;
    }
    var i := 0;
    while i < |patch.assertions|
      invariant 0 <= i <= |patch.assertions|
      invariant error == None && Handled(origin)
      invariant forall k, cell | 0 <= k < i && cell in CellsOf(patch.assertions[k]) ::
                  cell in origin && Settled(origin, cell)
    {
      error := CanonicalizeAssertion(patch.assertions[i], origin);
      if error.Some? {
        return;
      }
      i := i + 1;
    }
    SettledPatchIsValid(patch, origin);
  }

  /**
    Every unit-bearing literal of the patch states its value in the SI unit, and
    passes the validator if its datatype is compatible; all kept the lexical
    form, datatype and unit they came with.
   */
  ghost predicate PatchValid(patch: Patch, origin: Origin)
    requires Cells(patch.assertions) <= origin.Keys
    reads Cells(patch.assertions)
  {
    forall cell | cell in Cells(patch.assertions) ::
      var (before, literal) := (origin[cell], cell.Value());
      && literal.lexicalForm == before.lexicalForm && literal.datatypeName == before.datatypeName
      && literal.unit == before.unit
      && (literal.unit != "" ==> Converted(literal))
      && (literal.unit != "" && Compatible(literal) ==> Validate(literal, patch.version) == Ok(()))
  }

  lemma SettledPatchIsValid(patch: Patch, origin: Origin)
    requires patch.version == REGISTRY_V1 && Cells(patch.assertions) <= origin.Keys
    requires forall cell | cell in Cells(patch.assertions) :: Settled(origin, cell)
    ensures PatchValid(patch, origin)
  {
    hide Cells, Validate;
    forall cell | cell in Cells(patch.assertions)
      ensures var (before, literal) := (origin[cell], cell.Value());
              && literal.lexicalForm == before.lexicalForm && literal.datatypeName == before.datatypeName
              && literal.unit == before.unit
              && (literal.unit != "" ==> Converted(literal))
              && (literal.unit != "" && Compatible(literal) ==> Validate(literal, patch.version) == Ok(()))
    {
      SettledLiteral(origin[cell], cell.Value());
    }
  }

  lemma SettledLiteral(before: Literal, literal: Literal)
    requires Canonicalized(before) == Ok(literal)
    ensures literal.lexicalForm == before.lexicalForm && literal.datatypeName == before.datatypeName
        && literal.unit == before.unit
    ensures literal.unit != "" ==> Converted(literal)
    ensures literal.unit != "" && Compatible(literal) ==> Validate(literal, REGISTRY_V1) == Ok(())
  {
    hide Validate, ParseDecimal, Projection, Converted;
    if literal.unit != "" {
      CanonicalizedIsConversion(before, literal);
    }
    if literal.unit != "" && Compatible(literal) {
      CanonicalizedPassesValidation(before);
    }
  }
}
