/**
  Parameters of the spacecraft database, the two ways in which the generators look them up, and the sizes in
  the generated header (`srdb/obsw_srdb/model.py`, `loader.py`, `codegen.py`).
  */
module Srdb {
  import opened Bytes
  import HkModel

  // ----- Parameters -------------------------------------------------------------------------------------

  datatype Kind = Uint8 | Uint16 | Uint32 | Int8 | Int16 | Int32 | Float32

  /** A parameter record: `enumerated` where it lists discrete states, `ranged` where it has a conversion or
      limits. */
  datatype Parameter = Parameter(name: string, kind: Kind, ptc: int, pfc: int, enumerated: bool, ranged: bool)

  /** The table of types and their parameter type and format codes. */
  function Codes(k: Kind): (int, int) {
    match k
    case Uint8 => (1, 8)
    case Uint16 => (1, 16)
    case Uint32 => (1, 32)
    case Int8 => (2, 8)
    case Int16 => (2, 16)
    case Int32 => (2, 32)
    case Float32 => (5, 1)
  }

  /** What model validation demands of every parameter. */
  predicate Consistent(p: Parameter) {
    (p.ptc, p.pfc) == Codes(p.kind) && (p.enumerated ==> p.ptc == 1 || p.ptc == 2)
  }

  /** `_param_bits`. */
  function ParamBits(p: Parameter): int {
    if p.ptc == 1 || p.ptc == 2 then p.pfc
    else if p.ptc == 5 then (if p.pfc == 1 then 32 else 64)
    else p.pfc
  }

  /** How wide a variable of the type is on board, in octets. */
  function Octets(k: Kind): HkModel.Size {
    match k
    case Uint8 => 1
    case Int8 => 1
    case Uint16 => 2
    case Int16 => 2
    case _ => 4
  }

  /** For every valid parameter the codes give the width of its type: 8, 16 or 32 bits. */
  lemma BitsOfType(p: Parameter)
    requires Consistent(p)
    ensures ParamBits(p) == 8 * Octets(p.kind) && ParamBits(p) / 8 == Octets(p.kind)
  {
  }

  // ----- Lookups ----------------------------------------------------------------------------------------

  predicate Named(ps: seq<Parameter>, name: string) {
    exists i :: 0 <= i < |ps| && ps[i].name == name
  }

  /** `parameter_by_name`: the first parameter of a name. */
  function ByName(ps: seq<Parameter>, name: string): Option<Parameter> {
    if ps == [] then None else if ps[0].name == name then Some(ps[0]) else ByName(ps[1..], name)
  }

  /** The dictionary `generate_header` builds keeps the last parameter of a name. */
  function InDict(ps: seq<Parameter>, name: string): Option<Parameter> {
    if ps == [] then None
    else if ps[|ps| - 1].name == name then Some(ps[|ps| - 1]) else InDict(ps[..|ps| - 1], name)
  }

  lemma {:induction false} ByNameFinds(ps: seq<Parameter>, name: string)
    ensures ByName(ps, name).Some? <==> Named(ps, name)
    ensures ByName(ps, name).Some? ==> ByName(ps, name).value in ps && ByName(ps, name).value.name == name
  {
    if ps != [] && ps[0].name != name {
      ByNameFinds(ps[1..], name);
      if ByName(ps[1..], name).Some? {
        var i :| 0 <= i < |ps| - 1 && ps[1..][i].name == name;
        assert ps[i + 1].name == name;
      } else {
        forall i | 0 <= i < |ps| ensures ps[i].name != name {
          assert i > 0 ==> ps[i] == ps[1..][i - 1];
        }
      }
    }
  }

  lemma {:induction false} InDictFinds(ps: seq<Parameter>, name: string)
    ensures InDict(ps, name).Some? <==> Named(ps, name)
    ensures InDict(ps, name).Some? ==> InDict(ps, name).value in ps && InDict(ps, name).value.name == name
  {
    if ps != [] && ps[|ps| - 1].name != name {
      InDictFinds(ps[..|ps| - 1], name);
      if InDict(ps[..|ps| - 1], name).Some? {
        var i :| 0 <= i < |ps| - 1 && ps[..|ps| - 1][i].name == name;
        assert ps[i].name == name;
      } else {
        forall i | 0 <= i < |ps| ensures ps[i].name != name {
          assert i < |ps| - 1 ==> ps[i] == ps[..|ps| - 1][i];
        }
      }
    }
  }

  predicate UniqueNames(ps: seq<Parameter>) {
    forall i, j | 0 <= i < j < |ps| :: ps[i].name != ps[j].name
  }

  lemma LookupsAgree(ps: seq<Parameter>, name: string)
    requires UniqueNames(ps)
    ensures ByName(ps, name) == InDict(ps, name)
  {
    ByNameFinds(ps, name);
    InDictFinds(ps, name);
    if ByName(ps, name).Some? {
      var i :| 0 <= i < |ps| && ps[i] == ByName(ps, name).value;
      var j :| 0 <= j < |ps| && ps[j] == InDict(ps, name).value;
      assert i == j;
    }
  }

  // ----- The generated header -----------------------------------------------------------------------------

  /** What loading checks: valid parameters, and every housekeeping set refers to known names. */
  predicate Loadable(ps: seq<Parameter>, names: seq<string>) {
    AllConsistent(ps) && forall k | 0 <= k < |names| :: Named(ps, names[k])
  }

  predicate AllConsistent(ps: seq<Parameter>) {
    forall i | 0 <= i < |ps| :: Consistent(ps[i])
  }

  lemma LoadablePrefix(ps: seq<Parameter>, names: seq<string>)
    requires Loadable(ps, names) && names != []
    ensures Loadable(ps, names[..|names| - 1])
  {
    hide Named;
    var p := names[..|names| - 1];
    forall k | 0 <= k < |p| ensures Named(ps, p[k]) {
      assert p[k] == names[k];
    }
  }

  /** A name resolves, in both lookups, to valid parameters. */
  lemma Resolves(ps: seq<Parameter>, names: seq<string>, k: nat)
    requires Loadable(ps, names) && k < |names|
    ensures ByName(ps, names[k]).Some? && Consistent(ByName(ps, names[k]).value)
    ensures InDict(ps, names[k]).Some? && Consistent(InDict(ps, names[k]).value)
  {
    ByNameFinds(ps, names[k]);
    InDictFinds(ps, names[k]);
  }

  /** The octets the generated header gives to a name; zero where generation fails. */
  function HeaderSize(ps: seq<Parameter>, name: string): int {
    match InDict(ps, name)
    case None => 0
    case Some(p) => ParamBits(p) / 8
  }

  /** SIZES of a set. */
  function HeaderSizes(ps: seq<Parameter>, names: seq<string>): (r: seq<int>)
    ensures |r| == |names|
  {
    seq(|names|, i requires 0 <= i < |names| => HeaderSize(ps, names[i]))
  }

  function Sum(s: seq<int>): int {
    if s == [] then 0 else Sum(s[..|s| - 1]) + s[|s| - 1]
  }

  /** DATA_LEN of a set. */
  function DataLen(ps: seq<Parameter>, names: seq<string>): int {
    Sum(HeaderSizes(ps, names))
  }
}
