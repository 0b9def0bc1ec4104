/**
  What the generated XTCE declares and what a reference in a container then reads: types are emitted once per
  name, parameters are declared under their upper-cased names (`srdb/obsw_srdb/codegen.py`).
  */
module Xtce {
  import opened Bytes
  import opened Srdb

  // ----- Names ------------------------------------------------------------------------------------------

  /** How names are upper-cased: Python's `str.upper`, of which only `Raises` is used. */
  type Case = string -> string

  predicate NoLower(s: string) {
    forall i | 0 <= i < |s| :: !('a' <= s[i] <= 'z')
  }

  ghost predicate Raises(up: Case) {
    forall s: string :: NoLower(up(s))
  }

  /** Upper case of ASCII letters. */
  function Ascii(s: string): (r: string)
    ensures |r| == |s|
  {
    seq(|s|, i requires 0 <= i < |s| =>
      if 'a' <= s[i] <= 'z' then (s[i] as int - 'a' as int + 'A' as int) as char else s[i])
  }

  lemma AsciiRaises()
    ensures Raises(Ascii)
  {
  }

  // ----- Types ------------------------------------------------------------------------------------------

  /** A parameter with states, a conversion or limits has a type of its own. */
  predicate OwnType(p: Parameter) {
    p.enumerated || p.ranged
  }

  /** The type shared by all others of a kind, from the ptc and pfc of the kind. */
  function SharedType(k: Kind): string {
    match k
    case Uint8 => "uint8_t"
    case Uint16 => "uint16_t"
    case Uint32 => "uint32_t"
    case Int8 => "int8_t"
    case Int16 => "int16_t"
    case Int32 => "int32_t"
    case Float32 => "float32_t"
  }

  /** `_type_name`. */
  function TypeName(up: Case, p: Parameter): string {
    if OwnType(p) then up(p.name) + "_t" else SharedType(p.kind)
  }

  /** The encoding `_mission_param_type` writes. */
  function EncodedBits(p: Parameter): int {
    if p.enumerated then p.pfc else if p.ptc == 5 then ParamBits(p) else p.pfc
  }

  lemma EncodedIs(p: Parameter)
    requires Consistent(p)
    ensures EncodedBits(p) == ParamBits(p)
  {
  }

  datatype TypeDecl = TypeDecl(name: string, bits: int)

  const HEADER_TYPES: seq<TypeDecl> := [
    TypeDecl("uint1_t", 1), TypeDecl("uint2_t", 2), TypeDecl("uint3_t", 3), TypeDecl("uint8_t", 8),
    TypeDecl("uint11_t", 11), TypeDecl("uint14_t", 14), TypeDecl("uint16_t", 16), TypeDecl("uint32_t", 32)
  ]

  /** The first parameter that needs a type. */
  function FirstOf(up: Case, ps: seq<Parameter>, typeName: string): Option<Parameter> {
    if ps == [] then None
    else
      var n := |ps| - 1;
      var before := FirstOf(up, ps[..n], typeName);
      if before.Some? then before else if TypeName(up, ps[n]) == typeName then Some(ps[n]) else None
  }

  /** Each mission type is written once, for the first parameter that needs it. */
  function MissionTypes(up: Case, ps: seq<Parameter>): seq<TypeDecl> {
    if ps == [] then []
    else
      var n := |ps| - 1;
      var name := TypeName(up, ps[n]);
      MissionTypes(up, ps[..n])
      + if FirstOf(up, ps[..n], name).Some? then [] else [TypeDecl(name, EncodedBits(ps[n]))]
  }

  /** The loop of `_build_parameter_type_set`. */
  method BuildTypes(up: Case, ps: seq<Parameter>) returns (types: seq<TypeDecl>)
    ensures types == HEADER_TYPES + MissionTypes(up, ps)
  {
    types := HEADER_TYPES;
    var emitted: set<string> := {};
    for i := 0 to |ps|
      invariant types == HEADER_TYPES + MissionTypes(up, ps[..i])
      invariant forall name :: name in emitted <==> FirstOf(up, ps[..i], name).Some?
    {
      assert ps[..i + 1][..i] == ps[..i];
      var name := TypeName(up, ps[i]);
      if name in emitted {
        continue;
      }
      emitted := emitted + {name};
      types := types + [TypeDecl(name, EncodedBits(ps[i]))];
    }
    assert ps[..|ps|] == ps;
  }

  lemma {:induction false} MissionTypesAre(up: Case, ps: seq<Parameter>, t: TypeDecl)
    ensures t in MissionTypes(up, ps) <==>
      FirstOf(up, ps, t.name).Some? && t.bits == EncodedBits(FirstOf(up, ps, t.name).value)
  {
    if ps != [] {
      hide TypeName, EncodedBits;
      MissionTypesAre(up, ps[..|ps| - 1], t);
    }
  }

  lemma {:induction false} FirstOfFinds(up: Case, ps: seq<Parameter>, p: Parameter)
    requires p in ps
    ensures var first := FirstOf(up, ps, TypeName(up, p));
      first.Some? && first.value in ps && TypeName(up, first.value) == TypeName(up, p)
  {
    hide TypeName;
    var n := |ps| - 1;
    if p in ps[..n] {
      FirstOfFinds(up, ps[..n], p);
    } else {
      FirstOfMember(up, ps[..n], TypeName(up, p));
    }
  }

  lemma {:induction false} FirstOfMember(up: Case, ps: seq<Parameter>, name: string)
    ensures var first := FirstOf(up, ps, name);
      first.Some? ==> first.value in ps && TypeName(up, first.value) == name
  {
    if ps != [] {
      hide TypeName;
      FirstOfMember(up, ps[..|ps| - 1], name);
    }
  }

  // ----- Parameters ---------------------------------------------------------------------------------------

  datatype ParamDecl = ParamDecl(name: string, typeName: string)

  /** A header parameter, where its container puts it, and how wide the field is. */
  datatype Field = Field(name: string, typeName: string, bit: int, width: int)

  const HEADER: seq<Field> := [
    Field("PKT_VERSION", "uint3_t", 0, 3), Field("PKT_TYPE", "uint1_t", 3, 1), Field("SEC_HDR_FLAG", "uint1_t", 4, 1),
    Field("APID", "uint11_t", 5, 11), Field("SEQ_FLAGS", "uint2_t", 16, 2), Field("SEQ_COUNT", "uint14_t", 18, 14),
    Field("PKT_DATA_LEN", "uint16_t", 32, 16), Field("PUS_VERSION", "uint8_t", 48, 8),
    Field("SERVICE_TYPE", "uint8_t", 56, 8), Field("SERVICE_SUBTYPE", "uint8_t", 64, 8),
    Field("MSG_COUNTER", "uint16_t", 72, 16), Field("DEST_ID", "uint16_t", 88, 16),
    Field("TIMESTAMP", "uint32_t", 104, 32), Field("HK_SID", "uint8_t", 136, 8)
  ]

  function HeaderParams(): (r: seq<ParamDecl>)
    ensures |r| == |HEADER|
  {
    seq(|HEADER|, i requires 0 <= i < |HEADER| => ParamDecl(HEADER[i].name, HEADER[i].typeName))
  }

  /** Every parameter is declared, whether its upper-cased name is taken or not. */
  function MissionParams(up: Case, ps: seq<Parameter>): (r: seq<ParamDecl>)
    ensures |r| == |ps|
  {
    seq(|ps|, i requires 0 <= i < |ps| => ParamDecl(up(ps[i].name), TypeName(up, ps[i])))
  }

  /** The loop of `_build_parameter_set`. */
  method BuildParams(up: Case, ps: seq<Parameter>) returns (params: seq<ParamDecl>)
    ensures params == HeaderParams() + MissionParams(up, ps)
  {
    params := HeaderParams();
    for i := 0 to |ps|
      invariant params == HeaderParams() + MissionParams(up, ps)[..i]
    {
      params := params + [ParamDecl(up(ps[i].name), TypeName(up, ps[i]))];
    }
  }

  /** The two declaration lists of the document. */
  datatype Document = Document(types: seq<TypeDecl>, params: seq<ParamDecl>)

  function Generated(up: Case, ps: seq<Parameter>): Document {
    Document(HEADER_TYPES + MissionTypes(up, ps), HeaderParams() + MissionParams(up, ps))
  }

  // ----- What a reference reads -----------------------------------------------------------------------------

  /** Some declaration of the name, with some declaration of its type, is so many bits wide. */
  ghost predicate Reads(x: Document, ref: string, bits: int) {
    exists typeName :: ParamDecl(ref, typeName) in x.params && TypeDecl(typeName, bits) in x.types
  }

  /** However a reader resolves a name that is declared more than once, the reference reads that many bits. */
  ghost predicate ReadsOnly(x: Document, ref: string, bits: int) {
    Reads(x, ref, bits) && forall other :: Reads(x, ref, other) ==> other == bits
  }

  /** The first parameter with a type of its own under an upper-cased name. */
  function FirstOwn(up: Case, ps: seq<Parameter>, ref: string): Option<Parameter> {
    if ps == [] then None
    else
      var n := |ps| - 1;
      var before := FirstOwn(up, ps[..n], ref);
      if before.Some? then before else if OwnType(ps[n]) && up(ps[n].name) == ref then Some(ps[n]) else None
  }

  /** The width of a parameter's declared type, from the parameters alone: its own width, unless it has a type
      of its own, which is as wide as the first parameter that has one under the same upper-cased name. */
  function DeclaredBits(up: Case, ps: seq<Parameter>, p: Parameter): int {
    if !OwnType(p) then ParamBits(p)
    else
      match FirstOwn(up, ps, up(p.name))
      case None => ParamBits(p)
      case Some(first) => ParamBits(first)
  }

  /** A type of its own and a shared type never have one name, nor do two own types of different names. */
  lemma TypeNamesApart(up: Case, p: Parameter, q: Parameter)
    requires Raises(up)
    ensures OwnType(p) && !OwnType(q) ==> TypeName(up, p) != TypeName(up, q)
    ensures OwnType(p) && OwnType(q) ==> (TypeName(up, p) == TypeName(up, q) <==> up(p.name) == up(q.name))
    ensures !OwnType(p) && !OwnType(q) ==> (TypeName(up, p) == TypeName(up, q) <==> p.kind == q.kind)
  {
    var a, b := up(p.name), up(q.name);
    assert (a + "_t")[..|a|] == a && (b + "_t")[..|b|] == b;
    OwnIsNotShared(a, q.kind);
    SharedApart(p.kind, q.kind);
  }

  lemma OwnIsNotShared(s: string, k: Kind)
    requires NoLower(s)
    ensures s + "_t" != SharedType(k)
  {
    assert 'a' <= SharedType(k)[0] <= 'z';
    if s != [] {
      assert (s + "_t")[0] == s[0];
    }
  }

  lemma SharedApart(j: Kind, k: Kind)
    ensures SharedType(j) == SharedType(k) <==> j == k
  {
    var a, b := SharedType(j), SharedType(k);
    if a == b {
      assert a[0] == b[0] && a[|a| - 3] == b[|b| - 3] && a[|a| - 4] == b[|b| - 4];
    }
  }

  /** An own type is written for the first parameter that has one under the same upper-cased name. */
  lemma {:induction false} FirstOwnIs(up: Case, ps: seq<Parameter>, p: Parameter)
    requires Raises(up) && OwnType(p)
    ensures FirstOf(up, ps, TypeName(up, p)) == FirstOwn(up, ps, up(p.name))
  {
    if ps != [] {
      var n := |ps| - 1;
      FirstOwnIs(up, ps[..n], p);
      TypeNamesApart(up, p, ps[n]);
    }
  }

  lemma SharedInHeader(k: Kind, t: TypeDecl)
    requires t in HEADER_TYPES && t.name == SharedType(k)
    ensures t.bits == 8 * Octets(k)
  {
    var a := SharedType(k);
    assert |a| == |t.name| && a[4] == t.name[4] && a[5] == t.name[5];
  }

  lemma OwnNotInHeader(s: string, t: TypeDecl)
    requires NoLower(s) && t in HEADER_TYPES
    ensures t.name != s + "_t"
  {
    assert t.name[0] == 'u';
    if s != [] {
      assert (s + "_t")[0] == s[0];
    }
  }

  lemma SameKindSameBits(p: Parameter, q: Parameter)
    requires Consistent(p) && Consistent(q) && p.kind == q.kind
    ensures ParamBits(p) == ParamBits(q)
  {
  }

  /** The document gives a parameter's type one width, the declared one. */
  lemma TypeOfParameter(up: Case, ps: seq<Parameter>, p: Parameter, bits: int)
    requires Raises(up) && AllConsistent(ps) && p in ps
    ensures TypeDecl(TypeName(up, p), bits) in Generated(up, ps).types <==> bits == DeclaredBits(up, ps, p)
  {
    hide FirstOf, FirstOwn, MissionTypes, ParamBits, EncodedBits, Raises, NoLower;
    var t := TypeDecl(TypeName(up, p), bits);
    MissionTypesAre(up, ps, t);
    FirstOfFinds(up, ps, p);
    var first := FirstOf(up, ps, t.name).value;
    EncodedIs(first);
    TypeNamesApart(up, p, first);
    TypeNamesApart(up, first, p);
    if OwnType(p) {
      FirstOwnIs(up, ps, p);
    } else {
      SameKindSameBits(p, first);
    }
    if t in HEADER_TYPES {
      UpperName(up, p.name);
      NotOwnInHeader(up, p, t);
    }
  }

  lemma UpperName(up: Case, name: string)
    requires Raises(up)
    ensures NoLower(up(name))
  {
  }

  /** A header type of a parameter's type name is a shared one, of the same width. */
  lemma NotOwnInHeader(up: Case, p: Parameter, t: TypeDecl)
    requires NoLower(up(p.name)) && Consistent(p) && t in HEADER_TYPES && t.name == TypeName(up, p)
    ensures !OwnType(p) && t.bits == ParamBits(p)
  {
    hide NoLower;
    if OwnType(p) {
      OwnNotInHeader(up(p.name), t);
    } else {
      SharedInHeader(p.kind, t);
      BitsOfType(p);
    }
  }

  lemma HeaderFieldType(j: nat)
    requires j < |HEADER|
    ensures TypeDecl(HEADER[j].typeName, HEADER[j].width) in HEADER_TYPES
  {
  }

  lemma HeaderTypesDistinct(t: TypeDecl, u: TypeDecl)
    requires t in HEADER_TYPES && u in HEADER_TYPES && t.name == u.name
    ensures t == u
  {
    assert |t.name| == |u.name| && t.name[4] == u.name[4] && t.name[5] == u.name[5];
  }

  /** No mission type changes the width of a header field. */
  lemma TypeOfField(up: Case, ps: seq<Parameter>, j: nat, bits: int)
    requires Raises(up) && AllConsistent(ps) && j < |HEADER|
    ensures TypeDecl(HEADER[j].typeName, bits) in Generated(up, ps).types <==> bits == HEADER[j].width
  {
    hide FirstOf, MissionTypes, ParamBits, EncodedBits, Raises, NoLower, TypeName;
    var t, h := TypeDecl(HEADER[j].typeName, bits), TypeDecl(HEADER[j].typeName, HEADER[j].width);
    HeaderFieldType(j);
    MissionTypesAre(up, ps, t);
    if t in HEADER_TYPES {
      HeaderTypesDistinct(t, h);
    } else if t in MissionTypes(up, ps) {
      FirstOfMember(up, ps, t.name);
      var first := FirstOf(up, ps, t.name).value;
      EncodedIs(first);
      UpperName(up, first.name);
      NotOwnInHeader(up, first, h);
    }
  }

  // ----- What the document says of the database ---------------------------------------------------------------

  /** A parameter or header field of the upper-cased name is declared with that width. */
  ghost predicate Declares(up: Case, ps: seq<Parameter>, ref: string, bits: int) {
    || (exists i :: 0 <= i < |ps| && up(ps[i].name) == ref && DeclaredBits(up, ps, ps[i]) == bits)
    || (exists j :: 0 <= j < |HEADER| && HEADER[j].name == ref && HEADER[j].width == bits)
  }

  lemma ParamAt(up: Case, ps: seq<Parameter>, k: nat)
    requires k < |HEADER| + |ps|
    ensures var params := Generated(up, ps).params;
      && |params| == |HEADER| + |ps|
      && params[k] == if k < |HEADER| then ParamDecl(HEADER[k].name, HEADER[k].typeName)
                      else var p := ps[k - |HEADER|]; ParamDecl(up(p.name), TypeName(up, p))
  {
    hide MissionTypes, TypeName;
  }

  /** What a reference may read, from the parameters alone. */
  lemma ReadsDeclared(up: Case, ps: seq<Parameter>, ref: string, bits: int)
    requires Raises(up) && AllConsistent(ps)
    ensures Reads(Generated(up, ps), ref, bits) <==> Declares(up, ps, ref, bits)
  {
    hide Reads, Declares, Generated;
    if Reads(Generated(up, ps), ref, bits) {
      ReadIsDeclared(up, ps, ref, bits);
    }
    if Declares(up, ps, ref, bits) {
      DeclaredIsRead(up, ps, ref, bits);
    }
  }

  lemma ReadIsDeclared(up: Case, ps: seq<Parameter>, ref: string, bits: int)
    requires Raises(up) && AllConsistent(ps) && Reads(Generated(up, ps), ref, bits)
    ensures Declares(up, ps, ref, bits)
  {
    hide DeclaredBits, TypeName, Raises, Consistent, Generated;
    var x := Generated(up, ps);
    var typeName :| ParamDecl(ref, typeName) in x.params && TypeDecl(typeName, bits) in x.types;
    var k :| 0 <= k < |x.params| && x.params[k] == ParamDecl(ref, typeName);
    ParamCount(up, ps);
    ParamAt(up, ps, k);
    if k < |HEADER| {
      TypeOfField(up, ps, k, bits);
      assert HEADER[k].name == ref;
    } else {
      TypeOfParameter(up, ps, ps[k - |HEADER|], bits);
    }
  }

  lemma ParamCount(up: Case, ps: seq<Parameter>)
    ensures |Generated(up, ps).params| == |HEADER| + |ps|
  {
  }

  lemma DeclaredIsRead(up: Case, ps: seq<Parameter>, ref: string, bits: int)
    requires Raises(up) && AllConsistent(ps) && Declares(up, ps, ref, bits)
    ensures Reads(Generated(up, ps), ref, bits)
  {
    hide DeclaredBits, TypeName, Raises, Consistent, Generated;
    if i :| 0 <= i < |ps| && up(ps[i].name) == ref && DeclaredBits(up, ps, ps[i]) == bits {
      TypeOfParameter(up, ps, ps[i], bits);
      ParamAt(up, ps, |HEADER| + i);
    } else {
      var j :| 0 <= j < |HEADER| && HEADER[j].name == ref && HEADER[j].width == bits;
      TypeOfField(up, ps, j, bits);
      ParamAt(up, ps, j);
    }
  }

  /** All parameters and header fields of one upper-cased name are declared with that width. */
  predicate AllDeclared(up: Case, ps: seq<Parameter>, ref: string, bits: int) {
    && (forall i | 0 <= i < |ps| :: up(ps[i].name) == ref ==> DeclaredBits(up, ps, ps[i]) == bits)
    && (forall j | 0 <= j < |HEADER| :: HEADER[j].name == ref ==> HEADER[j].width == bits)
  }

  predicate IsDeclared(up: Case, ps: seq<Parameter>, ref: string) {
    (exists i :: 0 <= i < |ps| && up(ps[i].name) == ref) || (exists j :: 0 <= j < |HEADER| && HEADER[j].name == ref)
  }

  /** A reference reads one width if and only if all that is declared under its name has that width. */
  lemma ReadsOnlyDeclared(up: Case, ps: seq<Parameter>, ref: string, bits: int)
    requires Raises(up) && AllConsistent(ps) && IsDeclared(up, ps, ref)
    ensures ReadsOnly(Generated(up, ps), ref, bits) <==> AllDeclared(up, ps, ref, bits)
  {
    hide Reads, DeclaredBits, Raises, AllConsistent, Generated;
    forall other ensures Reads(Generated(up, ps), ref, other) <==> Declares(up, ps, ref, other) {
      ReadsDeclared(up, ps, ref, other);
    }
    if AllDeclared(up, ps, ref, bits) {
      assert Declares(up, ps, ref, bits);
    }
    if ReadsOnly(Generated(up, ps), ref, bits) {
      forall i | 0 <= i < |ps| && up(ps[i].name) == ref ensures DeclaredBits(up, ps, ps[i]) == bits {
        assert Declares(up, ps, ref, DeclaredBits(up, ps, ps[i]));
      }
      forall j | 0 <= j < |HEADER| && HEADER[j].name == ref ensures HEADER[j].width == bits {
        assert Declares(up, ps, ref, HEADER[j].width);
      }
    }
  }
}
