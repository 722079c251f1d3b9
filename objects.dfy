/** The runtime values of src/object.ts: a closed set of kinds, each with a
    fixed `type()` tag and an `inspect()` rendering. Values the source
    allocates with `new` and later compares by identity (strings, functions,
    return signals) carry an allocation number `id`, so that equality of two
    model values is the source's `===`. */
module Objects {

  import opened Ast
  import Decimal

  datatype Object =
    | Integer(intValue: int)
    | Boolean(boolValue: bool)
    | Null
    | ReturnValue(id: nat, inner: Object)
    | Error(message: string)
    /** A closure: `env` is the index of the captured scope (see module Environments). */
    | Function(id: nat, parameters: seq<Identifier>, body: BlockStatement, env: nat)
    | String(id: nat, text: string)
    | Builtin

  /** The shared singletons of src/evaluator.ts. */
  const TRUE: Object := Boolean(true)
  const FALSE: Object := Boolean(false)
  const NULL: Object := Null

  /** `type()`: one tag per kind, and no two kinds share a tag. */
  function TypeName(o: Object): (r: string)
    ensures r == "INTEGER" <==> o.Integer?
    ensures r == "BOOLEAN" <==> o.Boolean?
    ensures r == "NULL" <==> o.Null?
    ensures r == "RETURN_VALUE" <==> o.ReturnValue?
    ensures r == "ERROR" <==> o.Error?
    ensures r == "FUNCTION" <==> o.Function?
    ensures r == "STRING" <==> o.String?
    ensures r == "BUILTIN" <==> o.Builtin?
  {
    match o
    case Integer(_) => "INTEGER"
    case Boolean(_) => "BOOLEAN"
    case Null => "NULL"
    case ReturnValue(_, _) => "RETURN_VALUE"
    case Error(_) => "ERROR"
    case Function(_, _, _, _) => "FUNCTION"
    case String(_, _) => "STRING"
    case Builtin => "BUILTIN"
  }

  /** Two values have the same tag exactly when they are of the same kind. */
  lemma SameTypeNameIffSameKind(a: Object, b: Object)
    ensures TypeName(a) == TypeName(b) <==>
      (a.Integer? && b.Integer?) || (a.Boolean? && b.Boolean?) || (a.Null? && b.Null?) ||
      (a.ReturnValue? && b.ReturnValue?) || (a.Error? && b.Error?) ||
      (a.Function? && b.Function?) || (a.String? && b.String?) || (a.Builtin? && b.Builtin?)
  {
  }

  /** Values whose rendering the model covers: no function, however deeply
      wrapped in return signals, since a function's rendering prints its body. */
  predicate Inspectable(o: Object)
  {
    match o
    case Function(_, _, _, _) => false
    case ReturnValue(_, v) => Inspectable(v)
    case _ => true
  }

  /** `inspect()`. */
  function Inspect(o: Object): (r: string)
    requires Inspectable(o)
    ensures |r| > 0
  {
    match o
    case Integer(n) => Decimal.IntToDecimal(n)
    case Boolean(b) => if b then "true" else "false"
    case Null => "null"
    case ReturnValue(_, v) => Inspect(v)
    case Error(m) => "ERROR: " + m
    case String(_, s) => "\"" + s + "\""
    case Builtin => "builtin function"
  }

  /** A value wrapped in `k` return signals. */
  function Wrapped(k: nat, ids: seq<nat>, v: Object): (w: Object)
    requires |ids| == k
    ensures k > 0 ==> w.ReturnValue?
    ensures Inspectable(w) == Inspectable(v)
  {
    if k == 0 then v else ReturnValue(ids[0], Wrapped(k - 1, ids[1..], v))
  }

  /** A return signal renders as the value it carries, through any number of layers. */
  lemma {:induction false} InspectSeesThroughReturnValues(k: nat, ids: seq<nat>, v: Object)
    requires |ids| == k && Inspectable(v)
    ensures Inspect(Wrapped(k, ids, v)) == Inspect(v)
    decreases k
  {
    if k > 0 {
      InspectSeesThroughReturnValues(k - 1, ids[1..], v);
    }
  }

  /** An integer renders as its decimal digits, after a `-` when negative, and
      reading the digits back gives the magnitude. */
  lemma InspectIntegerReadsBack(n: int)
    ensures var s := Inspect(Integer(n));
      if n < 0 then
        |s| > 1 && s[0] == '-' && (forall i :: 1 <= i < |s| ==> Decimal.IsDigitChar(s[i])) &&
        Decimal.DigitsValue(s[1..]) == -n
      else
        (forall i :: 0 <= i < |s| ==> Decimal.IsDigitChar(s[i])) && Decimal.DigitsValue(s) == n
  {
    var s := Inspect(Integer(n));
    if n < 0 {
      assert s[1..] == Decimal.NatToDecimal(-n);
      Decimal.DigitsValueOfNatToDecimal(-n);
    } else {
      Decimal.DigitsValueOfNatToDecimal(n);
    }
  }

  /** Distinct integers render differently. */
  lemma InspectIntegerInjective(a: int, b: int)
    requires Inspect(Integer(a)) == Inspect(Integer(b))
    ensures a == b
  {
    InspectIntegerReadsBack(a);
    InspectIntegerReadsBack(b);
  }

  /** The message of an error, and the text of a string, can be read back from
      their renderings. */
  lemma InspectErrorAndStringReadBack(m: string, id: nat, t: string)
    ensures var e := Inspect(Error(m)); |e| >= 7 && e[..7] == "ERROR: " && e[7..] == m
    ensures var s := Inspect(String(id, t));
      |s| >= 2 && s[0] == '"' && s[|s| - 1] == '"' && s[1..|s| - 1] == t
  {
  }

  /** Booleans and null render as the words the scanner reads back as the
      literals `true` and `false`, and `null`. */
  lemma InspectConstants()
    ensures Inspect(TRUE) == "true" && Inspect(FALSE) == "false"
    ensures Inspect(NULL) == "null" && Inspect(Builtin) == "builtin function"
  {
  }
}
