// `IfLiteralResolver`: rewrites a lowered value used as an `if` or `while`
// test into a Racket boolean, following Python's truthiness. The rule that
// calls it also switches the NOT_EQUAL flag on (see ExprLowering).

module Truthiness {
  import opened Wrappers
  import opened Types

  /** The resolver's switcher, keyed by the instance's class for Typer
      instances and by the value itself otherwise. A handler that returns a
      bare string gives the caller the Null type. */
  function ResolveTruth(value: string, vType: Ty, legacy: bool): Result<(string, Ty)>
  {
    if IsTInstance(vType) then
      match vType
      case TList(_, _) => Ok(("(!= (gvector-count " + value + ") 0)", Bool))
      case TTuple(_) => if legacy then Err(TypeError) else Ok(("(!= (vector-length " + value + ") 0)", Null))
      case _ => Err(TypeError)
    else
      match vType
      case Bool => Ok((value, Bool))
      case Int => Ok(("(!= " + value + " 0)", Bool))
      case Float => Ok(("(!= " + value + " 0)", Bool))
      case Str => Ok(("(!= " + value + " \"\")", Bool))
      case NoneLit => Ok(("#f", Bool))
      case ListClass => Ok(("(!= (gvector-count " + value + ") 0)", Bool))
      case TupleClass => if legacy then Err(TypeError) else Ok(("(!= (vector-length " + value + ") 0)", Null))
      case _ => Err(TypeError)
  }

  /** Every resolved test is a boolean, except the tuple handler's bare
      string; and the value is consulted unless it is None. */
  lemma ResolvedTestIsBoolean(value: string, vType: Ty, legacy: bool)
    requires ResolveTruth(value, vType, legacy).Ok?
    ensures var (text, t) := ResolveTruth(value, vType, legacy).value;
      (t == Bool || (!legacy && (vType.TTuple? || vType == TupleClass) && t == Null))
      && (vType != NoneLit ==> Occurs(value, text))
  {
    var (text, t) := ResolveTruth(value, vType, legacy).value;
    if vType == Bool {
      assert InfixAt(text, 0, value);
    } else if vType == Int || vType == Float || vType == Str {
      assert InfixAt(text, 4, value);
    } else if vType.TList? || vType == ListClass {
      assert InfixAt(text, 19, value);
    } else if vType.TTuple? || vType == TupleClass {
      assert InfixAt(text, 19, value);
    }
  }

  /** Exactly the scalar classes, None and lists (and, in the newer
      snapshot, tuples) may stand as a condition; functions, unions, pending and
      field-less types are rejected with TypeError. */
  lemma ResolvableTypes(value: string, vType: Ty, legacy: bool)
    ensures ResolveTruth(value, vType, legacy).Ok? <==>
      (vType in {Bool, Int, Float, Str, NoneLit, ListClass} || vType.TList?
       || (!legacy && (vType.TTuple? || vType == TupleClass)))
    ensures ResolveTruth(value, vType, legacy).Err? ==> ResolveTruth(value, vType, legacy).error == TypeError
  {
  }
}
