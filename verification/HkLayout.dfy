/**
  The bit layout of each TM(3,25) container in the generated XTCE, against the sizes in the generated header and
  the packets the on-board code builds (`srdb/obsw_srdb/codegen.py`).
  */
module HkLayout {
  import opened Bytes
  import opened Srdb
  import opened Xtce
  import BitString
  import HkModel
  import HkPool
  import Housekeeping
  import TmPacket

  // ----- Containers -------------------------------------------------------------------------------------

  /** Application data start at this bit of a TM packet. */
  const OFF_APP_DATA := 136

  /** A `ParameterRefEntry`: what it refers to, and where it starts. */
  datatype Entry = Entry(ref: string, bit: int)

  /** The bits before entry k. */
  function Start(ps: seq<Parameter>, names: seq<string>): int {
    if names == [] then OFF_APP_DATA + 8
    else Start(ps, names[..|names| - 1]) + Width(ps, names[|names| - 1])
  }

  function Width(ps: seq<Parameter>, name: string): int {
    match ByName(ps, name)
    case None => 0
    case Some(p) => ParamBits(p)
  }

  /** The entry list of a set's container; names without a parameter get no entry. */
  function Entries(up: Case, ps: seq<Parameter>, names: seq<string>): seq<Entry> {
    if names == [] then []
    else
      var n := |names| - 1;
      Entries(up, ps, names[..n])
      + match ByName(ps, names[n])
        case None => []
        case Some(p) => [Entry(up(p.name), Start(ps, names[..n]))]
  }

  /** The loop of `_build_container_set` over one set's parameters. */
  method BuildContainer(up: Case, ps: seq<Parameter>, names: seq<string>) returns (entries: seq<Entry>)
    ensures entries == Entries(up, ps, names)
  {
    entries := [];
    var bit := OFF_APP_DATA + 8;
    for i := 0 to |names|
      invariant entries == Entries(up, ps, names[..i]) && bit == Start(ps, names[..i])
    {
      assert names[..i + 1][..i] == names[..i];
      var p := ByName(ps, names[i]);
      if p.None? {
        continue;
      }
      entries := entries + [Entry(up(p.value.name), bit)];
      bit := bit + ParamBits(p.value);
    }
    assert names[..|names|] == names;
  }

  /** For a loadable set, entry k refers to parameter k. */
  lemma {:induction false} EntryAt(up: Case, ps: seq<Parameter>, names: seq<string>, k: nat)
    requires Loadable(ps, names) && k < |names|
    ensures |Entries(up, ps, names)| == |names|
    ensures Entries(up, ps, names)[k] == Entry(up(names[k]), Start(ps, names[..k]))
  {
    hide Start, Loadable;
    var n := |names| - 1;
    Resolves(ps, names, n);
    ByNameFinds(ps, names[n]);
    LoadablePrefix(ps, names);
    if n > 0 {
      EntryAt(up, ps, names[..n], if k < n then k else 0);
      if k < n {
        assert names[..n][..k] == names[..k];
      }
    }
  }

  lemma EntryCount(up: Case, ps: seq<Parameter>, names: seq<string>)
    requires Loadable(ps, names)
    ensures |Entries(up, ps, names)| == |names|
  {
    if names != [] {
      EntryAt(up, ps, names, 0);
    }
  }

  // ----- Header and XTCE ----------------------------------------------------------------------------------

  /** The bit at which the header has parameter k. */
  function HeaderBit(ps: seq<Parameter>, names: seq<string>, k: nat): int
    requires k <= |names|
  {
    OFF_APP_DATA + 8 + 8 * Sum(HeaderSizes(ps, names)[..k])
  }

  /** Parameter k lies in the container behind the octets the header gives to its predecessors, and however a
      reader resolves its reference it is as wide as the octets the header gives to it. */
  ghost predicate SameField(up: Case, ps: seq<Parameter>, names: seq<string>, k: nat)
    requires k < |names|
  {
    && k < |Entries(up, ps, names)|
    && Entries(up, ps, names)[k] == Entry(up(names[k]), HeaderBit(ps, names, k))
    && ReadsOnly(Generated(up, ps), up(names[k]), 8 * HeaderSizes(ps, names)[k])
  }

  /** The packet header's fields read what they are wide. */
  ghost predicate HeaderIntact(up: Case, ps: seq<Parameter>) {
    forall j | 0 <= j < |HEADER| :: ReadsOnly(Generated(up, ps), HEADER[j].name, HEADER[j].width)
  }

  /** The generated header and the generated XTCE describe the same packet. */
  ghost predicate SameLayout(up: Case, ps: seq<Parameter>, names: seq<string>) {
    && |Entries(up, ps, names)| == |names| && HeaderIntact(up, ps)
    && forall k | 0 <= k < |names| :: SameField(up, ps, names, k)
  }

  /** The first and the last parameter of name k are equally wide. */
  predicate SameWidth(ps: seq<Parameter>, names: seq<string>, k: nat)
    requires k < |names|
  {
    Width(ps, names[k]) == 8 * HeaderSize(ps, names[k])
  }

  /** All that is declared under a listed name, upper-cased, is as wide as the last parameter of the name. */
  ghost predicate ListedDeclared(up: Case, ps: seq<Parameter>, names: seq<string>) {
    forall k | 0 <= k < |names| :: AllDeclared(up, ps, up(names[k]), 8 * HeaderSize(ps, names[k]))
  }

  /** No parameter changes the width of a header field by taking its name. */
  ghost predicate HeaderDeclared(up: Case, ps: seq<Parameter>) {
    forall j | 0 <= j < |HEADER| :: AllDeclared(up, ps, HEADER[j].name, HEADER[j].width)
  }

  /** What a database must satisfy for a set: all but the last name have the same first and last width, which
      keeps the bits behind them in place, and every declaration has the width the header gives. */
  ghost predicate Agreeing(up: Case, ps: seq<Parameter>, names: seq<string>) {
    && HeaderDeclared(up, ps) && ListedDeclared(up, ps, names)
    && forall k | 0 <= k < |names| - 1 :: SameWidth(ps, names, k)
  }

  /** Starts are sums of header sizes up to k exactly when the widths before k are those of the header. */
  lemma {:induction false} StartIsSum(ps: seq<Parameter>, names: seq<string>, k: nat)
    requires k <= |names| && forall i | 0 <= i < k :: SameWidth(ps, names, i)
    ensures Start(ps, names[..k]) == HeaderBit(ps, names, k)
  {
    if k == 0 {
      assert names[..0] == [] && HeaderSizes(ps, names)[..0] == [];
    } else {
      StartIsSum(ps, names, k - 1);
      StartStep(ps, names, k - 1);
      assert SameWidth(ps, names, k - 1);
    }
  }

  lemma StartStep(ps: seq<Parameter>, names: seq<string>, k: nat)
    requires k < |names|
    ensures Start(ps, names[..k + 1]) == Start(ps, names[..k]) + Width(ps, names[k])
    ensures HeaderBit(ps, names, k + 1) == HeaderBit(ps, names, k) + 8 * HeaderSize(ps, names[k])
  {
    hide Width, HeaderSize;
    var sizes := HeaderSizes(ps, names);
    assert names[..k + 1][..k] == names[..k];
    assert sizes[..k + 1][..k] == sizes[..k];
  }

  /** What the references read, for a loadable set. */
  lemma ReferencesAgree(up: Case, ps: seq<Parameter>, names: seq<string>)
    requires Raises(up) && Loadable(ps, names)
    ensures HeaderIntact(up, ps) <==> HeaderDeclared(up, ps)
    ensures (forall k | 0 <= k < |names| :: ReadsOnly(Generated(up, ps), up(names[k]), 8 * HeaderSize(ps, names[k])))
       <==> ListedDeclared(up, ps, names)
  {
    hide ReadsOnly, AllDeclared, HeaderSize, Raises, Generated;
    forall j | 0 <= j < |HEADER|
      ensures ReadsOnly(Generated(up, ps), HEADER[j].name, HEADER[j].width)
         <==> AllDeclared(up, ps, HEADER[j].name, HEADER[j].width)
    {
      assert IsDeclared(up, ps, HEADER[j].name);
      ReadsOnlyDeclared(up, ps, HEADER[j].name, HEADER[j].width);
    }
    forall k | 0 <= k < |names|
      ensures ReadsOnly(Generated(up, ps), up(names[k]), 8 * HeaderSize(ps, names[k]))
         <==> AllDeclared(up, ps, up(names[k]), 8 * HeaderSize(ps, names[k]))
    {
      NamedIsDeclared(up, ps, names[k]);
      ReadsOnlyDeclared(up, ps, up(names[k]), 8 * HeaderSize(ps, names[k]));
    }
  }

  lemma NamedIsDeclared(up: Case, ps: seq<Parameter>, name: string)
    requires Named(ps, name)
    ensures IsDeclared(up, ps, up(name))
  {
    var i :| 0 <= i < |ps| && ps[i].name == name;
    assert up(ps[i].name) == up(name);
  }

  /** Entries start where the header has them exactly when all widths but the last are those of the header. */
  lemma StartsAgree(ps: seq<Parameter>, names: seq<string>)
    ensures (forall k | 0 <= k < |names| :: Start(ps, names[..k]) == HeaderBit(ps, names, k))
       <==> (forall k | 0 <= k < |names| - 1 :: SameWidth(ps, names, k))
  {
    hide Start, HeaderBit, Width, HeaderSize;
    if forall k | 0 <= k < |names| - 1 :: SameWidth(ps, names, k) {
      forall k | 0 <= k < |names| ensures Start(ps, names[..k]) == HeaderBit(ps, names, k) {
        StartIsSum(ps, names, k);
      }
    }
    if forall k | 0 <= k < |names| :: Start(ps, names[..k]) == HeaderBit(ps, names, k) {
      forall k | 0 <= k < |names| - 1 ensures SameWidth(ps, names, k) {
        StartStep(ps, names, k);
        assert Start(ps, names[..k + 1]) == HeaderBit(ps, names, k + 1);
      }
    }
  }

  /**
    The generated C header and the generated XTCE agree on a loadable set if and only if the database is
    agreeing: a condition on the parameters alone, with every declaration that an upper-cased name may meet.
    */
  lemma LayoutsAgree(up: Case, ps: seq<Parameter>, names: seq<string>)
    requires Raises(up) && Loadable(ps, names)
    ensures SameLayout(up, ps, names) <==> Agreeing(up, ps, names)
  {
    hide Loadable, Start, Width, HeaderSize, HeaderBit, Entries, Generated, ReadsOnly, AllDeclared, Raises;
    hide HeaderIntact, HeaderDeclared, ListedDeclared, SameWidth;
    EntryCount(up, ps, names);
    ReferencesAgree(up, ps, names);
    StartsAgree(ps, names);
    forall k | 0 <= k < |names|
      ensures SameField(up, ps, names, k) <==>
        && Start(ps, names[..k]) == HeaderBit(ps, names, k)
        && ReadsOnly(Generated(up, ps), up(names[k]), 8 * HeaderSize(ps, names[k]))
    {
      EntryAt(up, ps, names, k);
    }
    if SameLayout(up, ps, names) {
      forall k | 0 <= k < |names|
        ensures Start(ps, names[..k]) == HeaderBit(ps, names, k)
        ensures ReadsOnly(Generated(up, ps), up(names[k]), 8 * HeaderSize(ps, names[k]))
      {
        assert SameField(up, ps, names, k);
      }
    }
  }

  // ----- Checks that suffice, and databases that fail ---------------------------------------------------------

  /** Upper-cased names are all different, and none is that of a header field. */
  predicate UniqueUpToCase(up: Case, ps: seq<Parameter>) {
    && (forall i, j | 0 <= i < j < |ps| :: up(ps[i].name) != up(ps[j].name))
    && (forall i, j | 0 <= i < |ps| && 0 <= j < |HEADER| :: up(ps[i].name) != HEADER[j].name)
  }

  lemma UniqueIsExact(up: Case, ps: seq<Parameter>)
    requires UniqueUpToCase(up, ps)
    ensures UniqueNames(ps)
  {
    forall i, j | 0 <= i < j < |ps| ensures ps[i].name != ps[j].name {
      assert up(ps[i].name) != up(ps[j].name);
    }
  }

  /** Then a parameter's type is its own, and as wide as it is. */
  lemma UniqueDeclared(up: Case, ps: seq<Parameter>, p: Parameter)
    requires UniqueUpToCase(up, ps) && p in ps
    ensures DeclaredBits(up, ps, p) == ParamBits(p)
  {
    FirstOwnFinds(up, ps, up(p.name));
    var i :| 0 <= i < |ps| && ps[i] == p;
    var first := FirstOwn(up, ps, up(p.name));
    if first.Some? {
      var j :| 0 <= j < |ps| && ps[j] == first.value;
      assert i == j;
    }
  }

  lemma {:induction false} FirstOwnFinds(up: Case, ps: seq<Parameter>, ref: string)
    ensures var first := FirstOwn(up, ps, ref); first.Some? ==> first.value in ps && up(first.value.name) == ref
  {
    if ps != [] {
      FirstOwnFinds(up, ps[..|ps| - 1], ref);
    }
  }

  /** Names unique up to case and apart from the header's are enough, for every set; composing a database
      checks less. */
  lemma UniqueNamesAgree(up: Case, ps: seq<Parameter>, names: seq<string>)
    requires Raises(up) && Loadable(ps, names) && UniqueUpToCase(up, ps)
    ensures SameLayout(up, ps, names)
  {
    hide DeclaredBits, Raises, SameLayout, Width, HeaderSize, FirstOwn, Loadable;
    forall k | 0 <= k < |names|
      ensures SameWidth(ps, names, k) && AllDeclared(up, ps, up(names[k]), Width(ps, names[k]))
    {
      UniqueField(up, ps, names, k);
    }
    LayoutsAgree(up, ps, names);
  }

  lemma UniqueField(up: Case, ps: seq<Parameter>, names: seq<string>, k: nat)
    requires Loadable(ps, names) && UniqueUpToCase(up, ps) && k < |names|
    ensures SameWidth(ps, names, k) && AllDeclared(up, ps, up(names[k]), Width(ps, names[k]))
  {
    hide DeclaredBits, ByName, InDict;
    UniqueIsExact(up, ps);
    LookupsAgree(ps, names[k]);
    Resolves(ps, names, k);
    ByNameFinds(ps, names[k]);
    var p := ByName(ps, names[k]).value;
    BitsOfType(p);
    UniqueDeclared(up, ps, p);
    var i :| 0 <= i < |ps| && ps[i] == p;
    forall j | 0 <= j < |ps| && up(ps[j].name) == up(names[k]) ensures DeclaredBits(up, ps, ps[j]) == ParamBits(p) {
      assert i == j;
    }
  }

  function Plain(name: string, kind: Kind): Parameter {
    Parameter(name, kind, Codes(kind).0, Codes(kind).1, false, false)
  }

  function Limited(name: string, kind: Kind): Parameter {
    Plain(name, kind).(ranged := true)
  }

  /** Loading a data directory does not check names: two parameters of one name and different types. */
  lemma DuplicateNamesDisagree(up: Case)
    requires Raises(up)
    ensures var ps := [Plain("p", Uint8), Plain("p", Uint32)]; Loadable(ps, ["p"]) && !SameLayout(up, ps, ["p"])
  {
    var ps := [Plain("p", Uint8), Plain("p", Uint32)];
    assert ps[0].name == "p" && Named(ps, "p");
    assert InDict(ps, "p") == Some(ps[1]);
    assert HeaderSize(ps, ["p"][0]) == 4 && DeclaredBits(up, ps, ps[0]) == 8;
    LayoutsAgree(up, ps, ["p"]);
  }

  /** `temp` and `TEMP`, both with limits. */
  const TWO_CASES: seq<Parameter> := [Limited("temp", Uint8), Limited("TEMP", Uint32)]

  /** Composing a database compares names exactly, and that is not enough: two names that differ in case only
      get one type, as wide as the first, whatever the reader does. */
  lemma NamesInTwoCasesDisagree()
    ensures Loadable(TWO_CASES, ["TEMP"]) && UniqueNames(TWO_CASES) && HeaderSizes(TWO_CASES, ["TEMP"]) == [4]
    ensures ReadsOnly(Generated(Ascii, TWO_CASES), "TEMP", 8) && !SameLayout(Ascii, TWO_CASES, ["TEMP"])
  {
    hide ReadsOnly, Generated, HeaderSize, Raises, Ascii, DeclaredBits, SameLayout;
    TwoCasesLoad();
    AsciiRaises();
    TwoCasesType();
    ReadsOnlyDeclared(Ascii, TWO_CASES, "TEMP", 8);
    LayoutsAgree(Ascii, TWO_CASES, ["TEMP"]);
    assert !AllDeclared(Ascii, TWO_CASES, Ascii(["TEMP"][0]), 8 * HeaderSize(TWO_CASES, ["TEMP"][0]));
  }

  lemma TwoCasesLoad()
    ensures Loadable(TWO_CASES, ["TEMP"]) && UniqueNames(TWO_CASES) && HeaderSize(TWO_CASES, "TEMP") == 4
  {
    assert TWO_CASES[0].name[0] != TWO_CASES[1].name[0];
    assert TWO_CASES[1].name == "TEMP" && Named(TWO_CASES, "TEMP");
    assert InDict(TWO_CASES, "TEMP") == Some(TWO_CASES[1]);
  }

  lemma TwoCasesType()
    ensures Ascii("temp") == "TEMP" && Ascii("TEMP") == "TEMP" && IsDeclared(Ascii, TWO_CASES, "TEMP")
    ensures DeclaredBits(Ascii, TWO_CASES, TWO_CASES[0]) == 8 && DeclaredBits(Ascii, TWO_CASES, TWO_CASES[1]) == 8
    ensures forall j | 0 <= j < |HEADER| :: HEADER[j].name != "TEMP"
  {
    assert Ascii("temp") == "TEMP" && Ascii("TEMP") == "TEMP";
    assert TWO_CASES[..1] == [TWO_CASES[0]] && [TWO_CASES[0]][..0] == [];
    assert FirstOwn(Ascii, [], "TEMP") == None;
    assert FirstOwn(Ascii, [TWO_CASES[0]], "TEMP") == Some(TWO_CASES[0]);
    assert Ascii(TWO_CASES[1].name) == "TEMP";
    assert forall j | 0 <= j < |HEADER| :: HEADER[j].name[0] != 'T' || HEADER[j].name[1] != 'E';
  }

  /** Nor are names unique up to case: one that is a header field's makes its references ambiguous. */
  lemma HeaderNameDisagrees()
    ensures var ps := [Plain("timestamp", Uint8)];
      && Loadable(ps, ["timestamp"]) && UniqueNames(ps)
      && !HeaderIntact(Ascii, ps) && !SameLayout(Ascii, ps, ["timestamp"])
  {
    var ps := [Plain("timestamp", Uint8)];
    assert ps[0].name == "timestamp" && Named(ps, "timestamp");
    assert Ascii("timestamp") == "TIMESTAMP";
    AsciiRaises();
    assert DeclaredBits(Ascii, ps, ps[0]) == 8 && HEADER[12].name == "TIMESTAMP" && HEADER[12].width == 32;
    ReferencesAgree(Ascii, ps, ["timestamp"]);
  }

  // ----- Reading a report --------------------------------------------------------------------------------

  /** The unsigned number at a bit position of a packet. */
  function ReadBits(b: bytes, at: int, width: int): int {
    if 0 <= at && 0 <= width && at + width <= 8 * |b| then BitString.Value(BitString.Bits(b)[at..at + width]) else -1
  }

  lemma {:induction false} BitsSlice(b: bytes, i: nat, j: nat)
    requires i <= j <= |b|
    ensures BitString.Bits(b)[8 * i..8 * j] == BitString.Bits(b[i..j])
  {
    assert b == b[..i] + (b[i..j] + b[j..]);
    BitString.BitsConcat(b[..i], b[i..j] + b[j..]);
    BitString.BitsConcat(b[i..j], b[j..]);
  }

  /** Big-endian octets read back as the low octets of the value. */
  lemma {:induction false} ReadOctets(v: nat, n: nat)
    ensures BitString.Value(BitString.Bits(HkModel.Octets(v, n))) == v % Pow256(n)
  {
    if n == 0 {
    } else {
      var high, low := HkModel.Octets(v / 256, n - 1), v % 256;
      ReadOctets(v / 256, n - 1);
      BitString.BitsConcat(high, [low]);
      BitsOfOne(low);
      BitString.ValueConcat(BitString.Bits(high), BitString.BitsOfByte(low));
      BitString.ValueOfByte(low);
      assert BitString.Pow2(8) == 256;
      LowPart(v, Pow256(n - 1));
    }
  }

  lemma BitsOfOne(b: u8)
    ensures BitString.Bits([b]) == BitString.BitsOfByte(b)
  {
    assert [b][1..] == [];
  }

  function Pow256(n: nat): (r: nat)
    ensures r > 0
  {
    if n == 0 then 1 else 256 * Pow256(n - 1)
  }

  lemma LowPart(v: nat, p: nat)
    requires p > 0
    ensures v / 256 % p * 256 + v % 256 == v % (256 * p)
  {
    var q, r := v / 256 / p, v / 256 % p;
    assert v / 256 == p * q + r;
    assert v == (256 * p) * q + (r * 256 + v % 256) by {
      assert v == 256 * (p * q + r) + v % 256;
      Regroup(p, q);
    }
    assert r * 256 + v % 256 < 256 * p by {
      assert r + 1 <= p;
    }
    HkModel.QuotientIs(v, 256 * p, q, r * 256 + v % 256);
  }

  lemma Regroup(p: nat, q: nat)
    ensures 256 * (p * q) == (256 * p) * q
  {
  }

  function Extent(ps: seq<HkModel.Param>): nat {
    if ps == [] then 0 else Extent(ps[..|ps| - 1]) + ps[|ps| - 1].size
  }

  lemma {:induction false} SerialisedLength(ps: seq<HkModel.Param>, m: HkModel.Memory)
    ensures |HkModel.Serialise(ps, m)| == Extent(ps)
  {
    if ps != [] {
      SerialisedLength(ps[..|ps| - 1], m);
    }
  }

  /** Parameter k lies behind the octets of its predecessors. */
  lemma {:induction false} SerialisedAt(ps: seq<HkModel.Param>, m: HkModel.Memory, k: nat)
    requires k < |ps|
    ensures Extent(ps[..k]) + ps[k].size <= |HkModel.Serialise(ps, m)|
    ensures HkModel.Serialise(ps, m)[Extent(ps[..k])..Extent(ps[..k]) + ps[k].size]
         == HkModel.Octets(m(ps[k].src), ps[k].size)
  {
    hide HkModel.Octets;
    var n := |ps| - 1;
    SerialisedLength(ps[..n], m);
    if k < n {
      SerialisedAt(ps[..n], m, k);
      assert ps[..n][..k] == ps[..k];
    }
  }

  /** A set's parameters bound to the widths of the generated header. */
  ghost predicate Bound(ps: seq<Parameter>, names: seq<string>, params: seq<HkModel.Param>) {
    |params| == |names| && forall k | 0 <= k < |names| :: params[k].size == HeaderSizes(ps, names)[k]
  }

  lemma {:induction false} BytesIsSum(params: seq<HkModel.Param>, sizes: seq<int>)
    requires |params| == |sizes| && forall k | 0 <= k < |sizes| :: params[k].size == sizes[k]
    ensures Extent(params) == Sum(sizes)
  {
    if params != [] {
      BytesIsSum(params[..|params| - 1], sizes[..|sizes| - 1]);
    }
  }

  /** For every loadable set the generated sizes are ones that binding accepts, and a set bound to them is
      laid out as the header says. */
  lemma SizesBind(ps: seq<Parameter>, names: seq<string>, params: seq<HkModel.Param>, sizes: bytes)
    requires Loadable(ps, names) && |params| == |names| == |sizes|
    requires forall k | 0 <= k < |sizes| :: sizes[k] == HeaderSizes(ps, names)[k]
    ensures Housekeeping.Widths(sizes) && Bound(ps, names, Housekeeping.Resized(params, sizes))
  {
    forall k | 0 <= k < |sizes| ensures sizes[k] in {1, 2, 4} {
      Resolves(ps, names, k);
      BitsOfType(InDict(ps, names[k]).value);
    }
  }

  /** The packet a set's report goes out as. */
  function ReportOctets(h: HkModel.Hk, s: HkModel.HkSet, m: HkModel.Memory): (b: bytes)
    requires 1 + |HkModel.Serialise(s.params, m)| <= TmPacket.MAX_DATA_LEN
  {
    TmPacket.Encode(HkModel.ReportPacket(h, s, HkModel.Serialise(s.params, m)))
  }

  lemma PacketData(h: HkModel.Hk, s: HkModel.HkSet, m: HkModel.Memory)
    requires 1 + |HkModel.Serialise(s.params, m)| <= TmPacket.MAX_DATA_LEN
    ensures var b := ReportOctets(h, s, m);
      |b| >= 18 && b[7] == 3 && b[8] == 25 && b[17] == s.setId && b[18..] == HkModel.Serialise(s.params, m)
  {
    hide HkModel.Serialise;
    var values := HkModel.Serialise(s.params, m);
    var b := ReportOctets(h, s, m);
    assert b[17..] == [s.setId] + values;
  }

  /**
    Decoding a report as the XTCE says returns what was on board, for every set bound to the generated header of
    an agreeing database and however a reader resolves its references: service and subservice, the set, and
    each variable at its width; and the data are as long as the header says.
    */
  lemma DecodedAsWritten(up: Case, ps: seq<Parameter>, names: seq<string>, h: HkModel.Hk, s: HkModel.HkSet,
                         m: HkModel.Memory, k: nat, bits: int)
    requires Raises(up) && Loadable(ps, names) && Agreeing(up, ps, names) && Bound(ps, names, s.params)
    requires 1 + |HkModel.Serialise(s.params, m)| <= TmPacket.MAX_DATA_LEN && k < |names|
    ensures var e, x, b := Entries(up, ps, names), Generated(up, ps), ReportOctets(h, s, m);
      && k < |e| && e[k].ref == up(names[k]) && (exists some :: Reads(x, e[k].ref, some))
      && (Reads(x, e[k].ref, bits) ==> ReadBits(b, e[k].bit, bits) == m(s.params[k].src) % Pow256(s.params[k].size))
      && (Reads(x, "HK_SID", bits) ==> ReadBits(b, OFF_APP_DATA, bits) == s.setId)
      && (Reads(x, "SERVICE_TYPE", bits) ==> ReadBits(b, 56, bits) == 3)
      && (Reads(x, "SERVICE_SUBTYPE", bits) ==> ReadBits(b, 64, bits) == 25)
      && |b| == TmPacket.DATA_OFFSET + 1 + DataLen(ps, names)
  {
    hide Loadable, Agreeing, Entries, ReportOctets, HkModel.Serialise, HkModel.Octets, ReadBits, Pow256, Generated;
    hide Reads, Raises, HeaderBit;
    LayoutsAgree(up, ps, names);
    assert SameField(up, ps, names, k);
    FieldAt(ps, names, s.params, k);
    FieldRead(h, s, m, k);
    OctetsRead(h, s, m);
    HeaderReads(up, ps);
    PacketData(h, s, m);
    SerialisedLength(s.params, m);
    BytesIsSum(s.params, HeaderSizes(ps, names));
  }

  lemma HeaderReads(up: Case, ps: seq<Parameter>)
    requires HeaderIntact(up, ps)
    ensures ReadsOnly(Generated(up, ps), "HK_SID", 8)
    ensures ReadsOnly(Generated(up, ps), "SERVICE_TYPE", 8) && ReadsOnly(Generated(up, ps), "SERVICE_SUBTYPE", 8)
  {
    hide ReadsOnly, Generated;
    assert HEADER[13].name == "HK_SID" && HEADER[8].name == "SERVICE_TYPE" && HEADER[9].name == "SERVICE_SUBTYPE";
  }

  /** What is read where the serialiser put parameter k. */
  lemma FieldRead(h: HkModel.Hk, s: HkModel.HkSet, m: HkModel.Memory, k: nat)
    requires 1 + |HkModel.Serialise(s.params, m)| <= TmPacket.MAX_DATA_LEN && k < |s.params|
    ensures ReadBits(ReportOctets(h, s, m), 8 * (18 + Extent(s.params[..k])), 8 * s.params[k].size as int)
         == m(s.params[k].src) % Pow256(s.params[k].size)
  {
    hide HkModel.Serialise, HkModel.Octets, ReportOctets, Pow256, ReadBits;
    var b := ReportOctets(h, s, m);
    PacketData(h, s, m);
    SerialisedAt(s.params, m, k);
    var at, n := Extent(s.params[..k]), s.params[k].size;
    HkPool.SliceOfSlice(b, 18, |b|, at, at + n);
    ReadAt(b, 18 + at, n, HkModel.Octets(m(s.params[k].src), n));
    ReadOctets(m(s.params[k].src), n);
  }

  lemma OctetsRead(h: HkModel.Hk, s: HkModel.HkSet, m: HkModel.Memory)
    requires 1 + |HkModel.Serialise(s.params, m)| <= TmPacket.MAX_DATA_LEN
    ensures var b := ReportOctets(h, s, m);
      ReadBits(b, OFF_APP_DATA, 8) == s.setId && ReadBits(b, 56, 8) == 3 && ReadBits(b, 64, 8) == 25
  {
    hide HkModel.Serialise, ReportOctets, ReadBits;
    PacketData(h, s, m);
    ReadOctet(ReportOctets(h, s, m), 17);
    ReadOctet(ReportOctets(h, s, m), 7);
    ReadOctet(ReportOctets(h, s, m), 8);
  }

  lemma ReadOctet(b: bytes, i: nat)
    requires i < |b|
    ensures ReadBits(b, 8 * i, 8) == b[i]
  {
    hide ReadBits, BitString.BitsOfByte;
    ReadAt(b, i, 1, [b[i]]);
    BitsOfOne(b[i]);
    BitString.ValueOfByte(b[i]);
  }

  /** Where the serialiser puts parameter k is where the header has it. */
  lemma FieldAt(ps: seq<Parameter>, names: seq<string>, params: seq<HkModel.Param>, k: nat)
    requires Bound(ps, names, params) && k < |names|
    ensures HeaderBit(ps, names, k) == 8 * (18 + Extent(params[..k]))
    ensures 8 * HeaderSizes(ps, names)[k] == 8 * params[k].size as int
  {
    BytesIsSum(params[..k], HeaderSizes(ps, names)[..k]);
  }

  lemma ReadAt(b: bytes, i: nat, n: nat, field: bytes)
    requires i + n <= |b| && b[i..i + n] == field
    ensures ReadBits(b, 8 * i, 8 * n) == BitString.Value(BitString.Bits(field))
  {
    hide BitString.Value, BitString.Bits;
    BitsSlice(b, i, i + n);
  }
}
