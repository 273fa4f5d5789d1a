/**
  Display names of Swagger types in the HTML API documents: a (type, format)
  pair becomes one word ("long", "float", "dateTime", ...), an array becomes
  "array(<item name>)", and query and form parameters are named the same way.
*/
module TypeNames {
  import opened JavaLang
  import opened Swagger

  /**
    `convertPrimitiveProperty`: integers with format int64 are "long",
    numbers are "double" or "float", strings are named after a handful of
    formats, and every other type (null included) is returned unchanged.
  */
  function ConvertPrimitiveProperty(t: Option<string>, format: Option<string>): (r: Option<string>)
    ensures r.None? <==> t.None?
    ensures t == Some("integer") ==> (r == Some("long") <==> format == Some("int64"))
    ensures t == Some("integer") ==> r == Some("long") || r == Some("integer")
    ensures t == Some("number") ==> (r == Some("double") <==> format == Some("double"))
    ensures t == Some("number") ==> r == Some("double") || r == Some("float")
    ensures t == Some("string") ==> (r == Some("dateTime") <==> format == Some("date-time"))
    ensures t == Some("string") && format.Some? && format.value in {"byte", "binary", "date", "password"} ==> r == format
    ensures t == Some("string") && !(format.Some? && format.value in {"byte", "binary", "date", "password", "date-time"}) ==>
              r == Some("string")
    ensures t.Some? && t.value !in {"integer", "number", "string"} ==> r == t
  {
    if t == Some("integer") then
      if format == Some("int64") then Some("long") else Some("integer")
    else if t == Some("number") then
      if format == Some("double") then format else Some("float")
    else if t == Some("string") then
      if format == Some("byte") || format == Some("binary") || format == Some("date") || format == Some("password") then format
      else if format == Some("date-time") then Some("dateTime")
      else t
    else t
  }

  /**
    `convertPropertyToCommonName`. The cast of line 190 throws for a property
    whose type is "array" but which is not an `ArrayProperty`, and the
    recursive call dereferences missing items; the second "array" test of the
    source can never be reached, so it has no counterpart here. Only the
    cast and the dereference throw, and an array's name is wrapped in
    "array(" and ")" (`CommonNameByNesting` gives the name in closed form).
  */
  function CommonName(p: Property): (r: Result<string>)
    ensures TypeOf(p) != "array" ==> r == Ok(PrimitiveName(p))
    ensures r.Throws? ==> r.exception == ClassCastException || r.exception == NullPointerException
    ensures r.Ok? && TypeOf(p) == "array" ==> |r.value| >= 7 && r.value[|r.value| - 1] == ')'
    decreases p
  {
    if TypeOf(p) == "array" then
      if !p.ArrayProperty? then Throws(ClassCastException)
      else if p.items.None? then Throws(NullPointerException)
      else
        match CommonName(p.items.value)
        case Ok(inner) => Ok("array(" + inner + ")")
        case Throws(e) => Throws(e)
    else
      Ok(PrimitiveName(p))
  }

  /** `k` copies of `s`, end to end. */
  function Repeat(s: string, k: nat): string
  {
    if k == 0 then "" else s + Repeat(s, k - 1)
  }

  lemma {:induction false} RepeatAppend(s: string, k: nat)
    ensures Repeat(s, k) + s == Repeat(s, k + 1)
  {
    if k > 0 {
      RepeatAppend(s, k - 1);
    }
  }

  lemma Regroup(a: string, b: string, m: string, c: string, z: string)
    ensures a + (b + m + c) + z == (a + b) + m + (c + z)
  {
  }

  /** How many `ArrayProperty` levels with items wrap a property. */
  function ArrayNesting(p: Property): nat
  {
    if p.ArrayProperty? && p.items.Some? then 1 + ArrayNesting(p.items.value) else 0
  }

  /** The property reached by following `items` through those levels. */
  function Innermost(p: Property): (q: Property)
    ensures !(q.ArrayProperty? && q.items.Some?)
  {
    if p.ArrayProperty? && p.items.Some? then Innermost(p.items.value) else p
  }

  /**
    The common name of a property, described without recursion: it throws
    exactly when the innermost element still claims to be an array (no items,
    or not an `ArrayProperty`), and is otherwise the innermost primitive name
    wrapped in one "array(...)" per nesting level.
  */
  lemma {:induction false} CommonNameByNesting(p: Property)
    ensures var d, q := ArrayNesting(p), Innermost(p);
      CommonName(p) ==
        if TypeOf(q) != "array" then Ok(Repeat("array(", d) + PrimitiveName(q) + Repeat(")", d))
        else if q.ArrayProperty? then Throws(NullPointerException)
        else Throws(ClassCastException)
  {
    if p.ArrayProperty? && p.items.Some? {
      var q := p.items.value;
      var d := ArrayNesting(q);
      var r := Innermost(q);
      CommonNameByNesting(q);
      assert ArrayNesting(p) == d + 1 && Innermost(p) == r;
      if TypeOf(r) != "array" {
        var opens, closes := Repeat("array(", d), Repeat(")", d);
        assert CommonName(q) == Ok(opens + PrimitiveName(r) + closes);
        RepeatAppend(")", d);
        Regroup("array(", opens, PrimitiveName(r), closes, ")");
      }
    } else if TypeOf(p) != "array" {
      assert Repeat("array(", 0) + PrimitiveName(p) + Repeat(")", 0) == PrimitiveName(p);
    }
  }

  /** The primitive-table name of a property that is not an array. */
  function PrimitiveName(q: Property): string
  {
    ConvertPrimitiveProperty(Some(TypeOf(q)), q.info.format).value
  }

  /** `object` is not special in `convertPropertyToCommonName`: it falls through to the primitive table. */
  lemma CommonNameOfObject(p: Property)
    requires TypeOf(p) == "object"
    ensures CommonName(p) == Ok("object")
  {
  }

  predicate IsQueryOrForm(param: Parameter)
  {
    param.kind == QueryParameter || param.kind == FormParameter
  }

  /**
    The `type()` of a parameter document: null for anything but a query or
    form parameter, "array" for an array without items, "array(...)" around
    the items' common name, "object" for an object, and the primitive table
    otherwise.
  */
  function ParamType(param: Parameter): (r: Result<Option<string>>)
    ensures !IsQueryOrForm(param) ==> r == Ok(None)
    ensures r == Ok(None) <==> !IsQueryOrForm(param) || param.paramType.None?
    ensures r.Throws? ==> IsQueryOrForm(param) && param.paramType == Some("array") && param.items.Some?
    ensures IsQueryOrForm(param) && param.paramType == Some("array") && param.items.None? ==> r == Ok(Some("array"))
    ensures IsQueryOrForm(param) && param.paramType == Some("object") ==> r == Ok(Some("object"))
  {
    if !IsQueryOrForm(param) then Ok(None)
    else if param.paramType == Some("array") then
      if param.items.Some? then
        match CommonName(param.items.value)
        case Ok(inner) => Ok(Some("array" + "(" + inner + ")"))
        case Throws(e) => Throws(e)
      else Ok(param.paramType)
    else if param.paramType == Some("object") then Ok(param.paramType)
    else Ok(ConvertPrimitiveProperty(param.paramType, param.format))
  }

  /** The property a typed query or form parameter describes. */
  function AsProperty(param: Parameter): Property
    requires param.paramType.Some?
  {
    var info := PropertyInfo(param.format, None, None, param.required);
    if param.paramType == Some("array") then ArrayProperty(param.items, info)
    else SimpleProperty(param.paramType.value, info)
  }

  /**
    A typed query or form parameter is named like the property it describes,
    except that an array parameter without items is plain "array" where the
    property path would throw.
  */
  lemma {:induction false} ParamTypeAgreesWithCommonName(param: Parameter)
    requires IsQueryOrForm(param) && param.paramType.Some?
    requires param.paramType == Some("array") ==> param.items.Some?
    ensures ParamType(param) ==
      match CommonName(AsProperty(param))
      case Ok(n) => Ok(Some(n))
      case Throws(e) => Throws(e)
  {
    if param.paramType == Some("array") {
      assert "array" + "(" == "array(";
      assert CommonName(AsProperty(param)) ==
        match CommonName(param.items.value)
        case Ok(inner) => Ok("array(" + inner + ")")
        case Throws(e) => Throws(e);
    }
  }
}
