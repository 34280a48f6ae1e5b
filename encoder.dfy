/**
 * The `inst` table of `assemble` and the encoding of one parsed line: each
 * mnemonic takes a fixed number of operands and concatenates fixed bits and
 * operand fields, left to right, into a 16-character word of `0`s and `1`s.
 * A command that is not a mnemonic but a decimal number is a raw data word.
 */
module Encoder {
  import opened Outcomes
  import opened Diagnostics
  import opened Decimal
  import opened Bits
  import Tokenizer

  /** One group of characters of an instruction word. */
  datatype Field =
    | Lit(bits: string)                          // fixed bits, such as an opcode
    | Arg(index: nat, width: nat, signed: bool)  // operand `index`, through `to_binary(_, width, signed)`

  /** One entry of the table: the number of parameters of its lambda and the groups it concatenates. */
  datatype OpSpec = OpSpec(arity: nat, layout: seq<Field>)

  /** `11` + rs(3) + rd(3) + opcode + `0000`, for the operands (rd, rs). */
  function Alu(op: string): OpSpec
  {
    OpSpec(2, [Lit("11"), Arg(1, 3, false), Arg(0, 3, false), Lit(op), Lit("0000")])
  }

  /** `11` + `000` + rd(3) + opcode + d(4), for the operands (rd, d). */
  function Shift(op: string): OpSpec
  {
    OpSpec(2, [Lit("11"), Lit("000"), Arg(0, 3, false), Lit(op), Arg(1, 4, false)])
  }

  /** prefix + ra(3) + rb(3) + d(8, signed), for the operands (ra, d, rb). */
  function Memory(prefix: string): OpSpec
  {
    OpSpec(3, [Lit(prefix), Arg(0, 3, false), Arg(2, 3, false), Arg(1, 8, true)])
  }

  /** `10` + cond + cc + d(8, signed), for the operand (d). */
  function Branch(cond: string, cc: string): OpSpec
  {
    OpSpec(1, [Lit("10"), Lit(cond), Lit(cc), Arg(0, 8, true)])
  }

  /** `11` + `000` + rd(3) + `1100` + `0000`, for the operand (rd). */
  function Input(): OpSpec
  {
    OpSpec(1, [Lit("11"), Lit("000"), Arg(0, 3, false), Lit("1100"), Lit("0000")])
  }

  /** `11` + rs(3) + `000` + `1101` + `0000`, for the operand (rs). */
  function Output(): OpSpec
  {
    OpSpec(1, [Lit("11"), Arg(0, 3, false), Lit("000"), Lit("1101"), Lit("0000")])
  }

  /** `11` + `000` + `000` + `1111` + `0000`, without operands. */
  function Halt(): OpSpec
  {
    OpSpec(0, [Lit("11"), Lit("000"), Lit("000"), Lit("1111"), Lit("0000")])
  }

  /** `10` + `000` + rb(3) + d(8, signed), for the operands (rb, d). */
  function LoadImmediate(): OpSpec
  {
    OpSpec(2, [Lit("10"), Lit("000"), Arg(0, 3, false), Arg(1, 8, true)])
  }

  /** The number of entries of `inst`. */
  const Size := 22

  /**
   * The instruction set, entry by entry in the order `assemble` writes its
   * dictionary: the seven ALU operations, the four shifts, IN, OUT, HLT, LD,
   * ST, LI, and the five branches.
   */
  function Entry(i: nat): (string, OpSpec)
    requires i < Size
  {
    if i < 7 then AluEntry(i)
    else if i < 11 then ShiftEntry(i - 7)
    else if i < 17 then ControlEntry(i - 11)
    else BranchEntry(i - 17)
  }

  /** The register-register operations. */
  function AluEntry(k: nat): (string, OpSpec)
    requires k < 7
  {
    match k
    case 0 => ("ADD", Alu("0000"))
    case 1 => ("SUB", Alu("0001"))
    case 2 => ("AND", Alu("0010"))
    case 3 => ("OR", Alu("0011"))
    case 4 => ("XOR", Alu("0100"))
    case 5 => ("CMP", Alu("0101"))
    case _ => ("MOV", Alu("0110"))
  }

  /** The shifts by a constant. */
  function ShiftEntry(k: nat): (string, OpSpec)
    requires k < 4
  {
    match k
    case 0 => ("SLL", Shift("1000"))
    case 1 => ("SLR", Shift("1001"))
    case 2 => ("SRL", Shift("1010"))
    case _ => ("SRA", Shift("1011"))
  }

  /** Input, output, halt, and the memory and immediate loads. */
  function ControlEntry(k: nat): (string, OpSpec)
    requires k < 6
  {
    match k
    case 0 => ("IN", Input())
    case 1 => ("OUT", Output())
    case 2 => ("HLT", Halt())
    case 3 => ("LD", Memory("00"))
    case 4 => ("ST", Memory("01"))
    case _ => ("LI", LoadImmediate())
  }

  /** The branches. */
  function BranchEntry(k: nat): (string, OpSpec)
    requires k < 5
  {
    match k
    case 0 => ("B", Branch("100", "000"))
    case 1 => ("BE", Branch("111", "000"))
    case 2 => ("BLT", Branch("111", "001"))
    case 3 => ("BLE", Branch("111", "010"))
    case _ => ("BNE", Branch("111", "011"))
  }

  /** The first entry at position i or later named cmd. */
  function FindFrom(i: nat, cmd: string): Option<OpSpec>
    decreases Size - i
  {
    if i >= Size then None
    else if Entry(i).0 == cmd then Some(Entry(i).1)
    else FindFrom(i + 1, cmd)
  }

  /** No mnemonic is empty; each is a run of capital letters. */
  predicate Capitals(name: string)
  {
    name != [] && forall k :: 0 <= k < |name| ==> 'A' <= name[k] <= 'Z'
  }

  /** `inst[cmd]` (the first entry named cmd), or nothing when `cmd in inst` does not hold: only capitalized words are mnemonics. */
  function Inst(cmd: string): (r: Option<OpSpec>)
    ensures r.Some? ==> Capitals(cmd)
  {
    TableNames();
    if FindFrom(0, cmd).Some? then FindEntry(0, cmd); FindFrom(0, cmd)
    else None
  }

  // ------------------------------------------------------------- layouts

  /** Every operand field of the layout names one of the n operands. */
  predicate Indexed(layout: seq<Field>, n: nat)
  {
    forall j :: 0 <= j < |layout| && layout[j].Arg? ==> layout[j].index < n
  }

  /** The operand indices of the layout, left to right. */
  function ArgIndices(layout: seq<Field>): seq<nat>
  {
    if layout == [] then []
    else if layout[0].Arg? then [layout[0].index] + ArgIndices(layout[1..])
    else ArgIndices(layout[1..])
  }

  function FieldWidth(f: Field): nat
  {
    match f
    case Lit(b) => |b|
    case Arg(_, w, _) => w
  }

  function LayoutWidth(layout: seq<Field>): nat
  {
    if layout == [] then 0 else FieldWidth(layout[0]) + LayoutWidth(layout[1..])
  }

  /** Fixed bits are a 0/1 string; an operand field is at least one bit wide. */
  predicate SoundField(f: Field)
  {
    match f
    case Lit(b) => IsBits(b)
    case Arg(_, w, _) => w >= 1
  }

  predicate Sound(layout: seq<Field>)
  {
    forall j :: 0 <= j < |layout| ==> SoundField(layout[j])
  }

  predicate Distinct(s: seq<nat>)
  {
    forall i, j :: 0 <= i < j < |s| ==> s[i] != s[j]
  }

  /** What the table promises of each entry: 16 bits, each operand used exactly once. */
  predicate WellFormed(spec: OpSpec)
  {
    Indexed(spec.layout, spec.arity) &&
    Sound(spec.layout) &&
    LayoutWidth(spec.layout) == 16 &&
    (forall k :: 0 <= k < spec.arity ==> k in ArgIndices(spec.layout)) &&
    Distinct(ArgIndices(spec.layout))
  }

  /** The operand value fits its field (fixed bits always fit). */
  predicate Fits(f: Field, args: seq<int>)
    requires f.Arg? ==> f.index < |args|
  {
    match f
    case Lit(_) => true
    case Arg(k, w, s) => InRange(args[k], w, s)
  }

  /** One group of the word: fixed bits as they are, an operand through `to_binary`. */
  function EncodeField(f: Field, args: seq<int>): Result<string, int>
    requires f.Arg? ==> f.index < |args|
  {
    match f
    case Lit(b) => Ok(b)
    case Arg(k, w, s) => ToBinary(args[k], w, s)
  }

  /**
   * The lambda's body: its groups evaluated and concatenated left to right.
   * The first operand that does not fit its field raises `ValueError` with
   * that operand's value, and no later field is looked at.
   */
  function EncodeFields(layout: seq<Field>, args: seq<int>): (r: Result<string, int>)
    requires Indexed(layout, |args|)
    ensures r.Ok? <==> forall j :: 0 <= j < |layout| ==> Fits(layout[j], args)
    ensures r.Err? ==>
      exists j :: 0 <= j < |layout| && layout[j].Arg? && !Fits(layout[j], args) &&
                  r.error == args[layout[j].index] &&
                  forall i :: 0 <= i < j ==> Fits(layout[i], args)
    ensures r.Ok? && Sound(layout) ==> IsBits(r.value) && |r.value| == LayoutWidth(layout)
  {
    if layout == [] then Ok([])
    else
      assert Indexed(layout[1..], |args|) by {
        assert forall j :: 0 <= j < |layout| - 1 ==> layout[1..][j] == layout[j + 1];
      }
      match EncodeField(layout[0], args)
      case Err(v) => Err(v)
      case Ok(p) =>
        match EncodeFields(layout[1..], args)
        case Err(v) =>
          assert forall j :: 0 <= j < |layout| - 1 ==> layout[1..][j] == layout[j + 1];
          Err(v)
        case Ok(rest) =>
          assert Sound(layout) ==> Sound(layout[1..]) by {
            assert forall j :: 0 <= j < |layout| - 1 ==> layout[1..][j] == layout[j + 1];
          }
          Ok(p + rest)
  }

  // ------------------------------------------------------------- one line

  /** `cmd.isdigit() or (cmd[0] == "-" and cmd[1:].isdigit())`: a raw data word. */
  predicate IsDataWord(cmd: string)
  {
    (|cmd| >= 1 && AllDigits(cmd)) || (|cmd| >= 2 && cmd[0] == '-' && AllDigits(cmd[1..]))
  }

  /**
   * `int(cmd)` for a raw data word. The `isdigit` test guarantees that `int`
   * reads the command, so the value always exists.
   */
  function DataValue(cmd: string): (v: int)
    requires IsDataWord(cmd)
    ensures Tokenizer.ParseInt(cmd) == Some(v)
  {
    Tokenizer.ParseInt(cmd).value
  }

  /**
   * The `try` block of `assemble` for one parsed line: call the table's lambda
   * with the operands, or emit a raw 16-bit data word, or report an unknown
   * command. A lambda called with the wrong number of operands raises
   * `TypeError`; an operand or data word out of range raises `ValueError`.
   * The scanner never produces an empty command, and on one the source would
   * fail with an uncaught `IndexError`.
   */
  function Encode(cmd: string, args: seq<int>): (r: Result<string, Diagnostic>)
    requires cmd != []
    ensures r.Ok? ==> IsBits(r.value) && |r.value| == 16
    ensures r.Err? ==> !r.error.BadArgument?
  {
    match Inst(cmd)
    case Some(spec) =>
      TableWellFormed(cmd);
      if |args| != spec.arity then Err(WrongArgCount(spec.arity, |args|))
      else
        (match EncodeFields(spec.layout, args)
         case Err(v) => Err(OutOfRange(v))
         case Ok(w) => Ok(w))
    case None =>
      if IsDataWord(cmd) then
        (match ToBinary(DataValue(cmd), 16, true)
         case Err(v) => Err(OutOfRange(v))
         case Ok(w) => Ok(w))
      else Err(UnknownCommand(cmd))
  }

  /** What each outcome of `Encode` means: the arity check, the unknown command, the range checks. */
  lemma EncodeCases(cmd: string, args: seq<int>)
    requires cmd != []
    ensures var r := Encode(cmd, args);
      (r.Err? && r.error.WrongArgCount?) <==> Inst(cmd).Some? && |args| != Inst(cmd).value.arity
    ensures var r := Encode(cmd, args);
      r.Err? && r.error.WrongArgCount? ==> r.error == WrongArgCount(Inst(cmd).value.arity, |args|)
    ensures var r := Encode(cmd, args);
      (r.Err? && r.error.UnknownCommand?) <==> Inst(cmd).None? && !IsDataWord(cmd)
    ensures var r := Encode(cmd, args);
      r.Err? && r.error.UnknownCommand? ==> r.error.cmd == cmd
    ensures var r := Encode(cmd, args);
      Inst(cmd).Some? && |args| == Inst(cmd).value.arity ==>
        WellFormed(Inst(cmd).value) &&
        (r.Ok? <==> forall j :: 0 <= j < |Inst(cmd).value.layout| ==> Fits(Inst(cmd).value.layout[j], args))
    ensures var r := Encode(cmd, args);
      Inst(cmd).Some? && r.Err? && r.error.OutOfRange? ==> r.error.value in args
    ensures var r := Encode(cmd, args);
      Inst(cmd).None? && IsDataWord(cmd) ==>
        (r.Ok? <==> InSignedRange(DataValue(cmd), 16)) &&
        (r.Ok? ==> Signed(r.value) == DataValue(cmd)) &&
        (r.Err? ==> r.error == OutOfRange(DataValue(cmd)))
  {
    if Inst(cmd).Some? {
      TableWellFormed(cmd);
    }
  }

  // ------------------------------------------------------------- decoding

  /**
   * Reads a word back against a layout: fixed bits must match, and each
   * operand field is read as the number it encodes. The result maps operand
   * indices to values.
   */
  function DecodeFields(layout: seq<Field>, w: string): (r: Option<map<nat, int>>)
    ensures r.Some? ==> forall k :: k in r.value <==> k in ArgIndices(layout)
  {
    if layout == [] then (if w == [] then Some(map[]) else None)
    else
      var n := FieldWidth(layout[0]);
      if |w| < n then None
      else
        match layout[0]
        case Lit(b) => if w[..n] == b then DecodeFields(layout[1..], w[n..]) else None
        case Arg(k, _, s) =>
          match DecodeFields(layout[1..], w[n..])
          case None => None
          case Some(m) => Some(m[k := FromBinary(w[..n], s)])
  }

  /** The operands an instruction word of this entry was assembled from. */
  function Decode(spec: OpSpec, w: string): (r: Option<seq<int>>)
    ensures r.Some? ==> |r.value| == spec.arity
  {
    match DecodeFields(spec.layout, w)
    case None => None
    case Some(m) =>
      if forall k :: 0 <= k < spec.arity ==> k in m
      then Some(seq(spec.arity, k requires 0 <= k < spec.arity && k in m => m[k]))
      else None
  }

  // ------------------------------------------------------------- lemmas

  lemma {:induction false} IndicesBelow(layout: seq<Field>, n: nat)
    requires Indexed(layout, n)
    ensures forall k :: k in ArgIndices(layout) ==> k < n
  {
    if layout != [] {
      assert Indexed(layout[1..], n) by {
        assert forall j :: 0 <= j < |layout| - 1 ==> layout[1..][j] == layout[j + 1];
      }
      IndicesBelow(layout[1..], n);
    }
  }

  lemma TailFacts(layout: seq<Field>, n: nat)
    requires layout != []
    ensures Indexed(layout, n) ==> Indexed(layout[1..], n)
    ensures Sound(layout) ==> Sound(layout[1..])
  {
    assert forall j :: 0 <= j < |layout| - 1 ==> layout[1..][j] == layout[j + 1];
  }

  lemma DistinctCons(x: nat, t: seq<nat>)
    requires Distinct([x] + t)
    ensures Distinct(t) && x !in t
  {
    var all := [x] + t;
    forall i, j | 0 <= i < j < |t|
      ensures t[i] != t[j]
    {
      assert all[i + 1] == t[i] && all[j + 1] == t[j];
    }
    forall j | 0 <= j < |t|
      ensures t[j] != x
    {
      assert all[0] == x && all[j + 1] == t[j];
    }
  }

  lemma TailDistinct(layout: seq<Field>)
    requires layout != [] && Distinct(ArgIndices(layout))
    ensures Distinct(ArgIndices(layout[1..]))
    ensures layout[0].Arg? ==> layout[0].index !in ArgIndices(layout[1..])
  {
    var t := ArgIndices(layout[1..]);
    if layout[0].Arg? {
      assert ArgIndices(layout) == [layout[0].index] + t;
      DistinctCons(layout[0].index, t);
    } else {
      assert ArgIndices(layout) == t;
    }
  }

  /** Encoding then decoding a layout recovers every operand it names. */
  lemma {:induction false} EncodeDecodeFields(layout: seq<Field>, args: seq<int>, w: string)
    requires Indexed(layout, |args|) && Sound(layout)
    requires EncodeFields(layout, args) == Ok(w)
    ensures DecodeFields(layout, w).Some?
    ensures forall k :: k in DecodeFields(layout, w).value ==> k < |args| && DecodeFields(layout, w).value[k] == args[k]
  {
    if layout != [] {
      TailFacts(layout, |args|);
      var rest := EncodeFields(layout[1..], args).value;
      var n := FieldWidth(layout[0]);
      EncodeDecodeFields(layout[1..], args, rest);
      match layout[0]
      case Lit(b) =>
        assert w == b + rest;
        assert w[..n] == b && w[n..] == rest;
      case Arg(k, wd, s) =>
        assert Sound(layout) ==> wd >= 1 by { assert layout[0] == Arg(k, wd, s); }
        var p := ToBinary(args[k], wd, s).value;
        assert w == p + rest;
        assert w[..n] == p && w[n..] == rest;
    }
  }

  /** A layout's word is its first group followed by the word of the rest. */
  lemma EncodeFieldsCons(layout: seq<Field>, args: seq<int>, p: string, rest: string)
    requires layout != [] && Indexed(layout, |args|) && Indexed(layout[1..], |args|)
    requires EncodeField(layout[0], args) == Ok(p) && EncodeFields(layout[1..], args) == Ok(rest)
    ensures EncodeFields(layout, args) == Ok(p + rest)
  {
  }

  /**
   * The first group of a decoded word: its bits are what the first field
   * encodes, and the rest of the word decodes to the map m' of the rest.
   */
  lemma DecodeHead(layout: seq<Field>, w: string, m: map<nat, int>, args: seq<int>) returns (m': map<nat, int>)
    requires layout != [] && Indexed(layout, |args|) && Sound(layout) && Distinct(ArgIndices(layout)) && IsBits(w)
    requires DecodeFields(layout, w) == Some(m)
    requires forall k :: k in m && k < |args| ==> args[k] == m[k]
    ensures FieldWidth(layout[0]) <= |w|
    ensures DecodeFields(layout[1..], w[FieldWidth(layout[0])..]) == Some(m')
    ensures forall k :: k in m' && k < |args| ==> args[k] == m'[k]
    ensures EncodeField(layout[0], args) == Ok(w[..FieldWidth(layout[0])])
  {
    var n := FieldWidth(layout[0]);
    assert IsBits(w[..n]);
    match layout[0]
    case Lit(b) =>
      m' := m;
    case Arg(k, wd, s) =>
      assert wd >= 1 by { assert layout[0] == Arg(k, wd, s); }
      TailDistinct(layout);
      m' := DecodeFields(layout[1..], w[n..]).value;
      assert m == m'[k := FromBinary(w[..n], s)];
      assert k !in m';
      FromBinaryRoundTrip(w[..n], s);
  }

  /** A word that decodes to some operands is what those operands encode to. */
  lemma {:induction false} DecodeEncodeFields(layout: seq<Field>, w: string, m: map<nat, int>, args: seq<int>)
    requires Indexed(layout, |args|) && Sound(layout) && Distinct(ArgIndices(layout)) && IsBits(w)
    requires DecodeFields(layout, w) == Some(m)
    requires forall k :: k in m && k < |args| ==> args[k] == m[k]
    ensures EncodeFields(layout, args) == Ok(w)
  {
    if layout != [] {
      var m' := DecodeHead(layout, w, m, args);
      var n := FieldWidth(layout[0]);
      TailFacts(layout, |args|);
      TailDistinct(layout);
      assert IsBits(w[n..]);
      DecodeEncodeFields(layout[1..], w[n..], m', args);
      EncodeFieldsCons(layout, args, w[..n], w[n..]);
      assert w == w[..n] + w[n..];
    }
  }

  /** Every mnemonic's word decodes back to the operands it was assembled from. */
  lemma EncodeDecode(cmd: string, args: seq<int>)
    requires Inst(cmd).Some? && Encode(cmd, args).Ok?
    ensures Decode(Inst(cmd).value, Encode(cmd, args).value) == Some(args)
  {
    var spec := Inst(cmd).value;
    TableWellFormed(cmd);
    EncodeCases(cmd, args);
    var w := Encode(cmd, args).value;
    assert |args| == spec.arity;
    assert EncodeFields(spec.layout, args) == Ok(w);
    EncodeDecodeFields(spec.layout, args, w);
    var m := DecodeFields(spec.layout, w).value;
    assert forall k :: 0 <= k < spec.arity ==> k in m;
    var d := seq(spec.arity, k requires 0 <= k < spec.arity && k in m => m[k]);
    assert Decode(spec, w) == Some(d);
    assert d == args;
  }

  /** Conversely, a 0/1 word that decodes under a mnemonic is that mnemonic's encoding of the decoded operands. */
  lemma DecodeEncode(cmd: string, w: string, args: seq<int>)
    requires Inst(cmd).Some? && IsBits(w) && Decode(Inst(cmd).value, w) == Some(args)
    ensures Encode(cmd, args) == Ok(w)
  {
    var spec := Inst(cmd).value;
    TableWellFormed(cmd);
    var m := DecodeFields(spec.layout, w).value;
    DecodeEncodeFields(spec.layout, w, m, args);
  }

  // ------------------------------------------------------------- the table

  /** Width and operand indices of a layout, one field at a time from position i. */
  lemma LayoutStep(layout: seq<Field>, i: nat)
    requires i < |layout|
    ensures LayoutWidth(layout[i..]) == FieldWidth(layout[i]) + LayoutWidth(layout[i + 1..])
    ensures ArgIndices(layout[i..]) ==
      (if layout[i].Arg? then [layout[i].index] else []) + ArgIndices(layout[i + 1..])
    ensures SoundField(layout[i]) && Sound(layout[i + 1..]) ==> Sound(layout[i..])
  {
    assert layout[i..][1..] == layout[i + 1..];
  }

  /** The operand index an operand field contributes to ArgIndices. */
  function FieldIndices(f: Field): seq<nat>
  {
    if f.Arg? then [f.index] else []
  }

  /** Width, operand indices and soundness of a one-field layout. */
  lemma Layout1(a: Field)
    ensures LayoutWidth([a]) == FieldWidth(a)
    ensures ArgIndices([a]) == FieldIndices(a)
    ensures SoundField(a) ==> Sound([a])
  {
    var layout := [a];
    assert layout[1..] == [];
    LayoutStep(layout, 0);
  }

  /** The same for two fields, the first in front of the layout of the second. */
  lemma Layout2(a: Field, b: Field)
    ensures LayoutWidth([a, b]) == FieldWidth(a) + FieldWidth(b)
    ensures ArgIndices([a, b]) == FieldIndices(a) + FieldIndices(b)
    ensures SoundField(a) && SoundField(b) ==> Sound([a, b])
  {
    var layout := [a, b];
    Layout1(b);
    assert layout[1..] == [b];
    LayoutStep(layout, 0);
  }

  lemma Layout3(a: Field, b: Field, c: Field)
    ensures LayoutWidth([a, b, c]) == FieldWidth(a) + FieldWidth(b) + FieldWidth(c)
    ensures ArgIndices([a, b, c]) == FieldIndices(a) + (FieldIndices(b) + FieldIndices(c))
    ensures SoundField(a) && SoundField(b) && SoundField(c) ==> Sound([a, b, c])
  {
    var layout := [a, b, c];
    Layout2(b, c);
    assert layout[1..] == [b, c];
    LayoutStep(layout, 0);
  }

  lemma Layout4(a: Field, b: Field, c: Field, d: Field)
    ensures LayoutWidth([a, b, c, d]) == FieldWidth(a) + FieldWidth(b) + FieldWidth(c) + FieldWidth(d)
    ensures ArgIndices([a, b, c, d]) == FieldIndices(a) + (FieldIndices(b) + (FieldIndices(c) + FieldIndices(d)))
    ensures SoundField(a) && SoundField(b) && SoundField(c) && SoundField(d) ==> Sound([a, b, c, d])
  {
    var layout := [a, b, c, d];
    Layout3(b, c, d);
    assert layout[1..] == [b, c, d];
    LayoutStep(layout, 0);
  }

  lemma Layout5(a: Field, b: Field, c: Field, d: Field, e: Field)
    ensures LayoutWidth([a, b, c, d, e]) ==
      FieldWidth(a) + FieldWidth(b) + FieldWidth(c) + FieldWidth(d) + FieldWidth(e)
    ensures ArgIndices([a, b, c, d, e]) ==
      FieldIndices(a) + (FieldIndices(b) + (FieldIndices(c) + (FieldIndices(d) + FieldIndices(e))))
    ensures SoundField(a) && SoundField(b) && SoundField(c) && SoundField(d) && SoundField(e) ==>
      Sound([a, b, c, d, e])
  {
    var layout := [a, b, c, d, e];
    Layout4(b, c, d, e);
    assert layout[1..] == [b, c, d, e];
    LayoutStep(layout, 0);
  }

  /** The fixed bit groups that the lambdas write out themselves. */
  lemma FixedBits()
    ensures IsBits("10") && IsBits("11") && IsBits("000") && IsBits("0000")
    ensures IsBits("1100") && IsBits("1101") && IsBits("1111")
  {
  }

  lemma AluWellFormed(op: string)
    requires |op| == 4 && IsBits(op)
    ensures WellFormed(Alu(op))
  {
    FixedBits();
    Layout5(Lit("11"), Arg(1, 3, false), Arg(0, 3, false), Lit(op), Lit("0000"));
  }

  lemma ShiftWellFormed(op: string)
    requires |op| == 4 && IsBits(op)
    ensures WellFormed(Shift(op))
  {
    FixedBits();
    Layout5(Lit("11"), Lit("000"), Arg(0, 3, false), Lit(op), Arg(1, 4, false));
  }

  lemma MemoryWellFormed(prefix: string)
    requires |prefix| == 2 && IsBits(prefix)
    ensures WellFormed(Memory(prefix))
  {
    FixedBits();
    Layout4(Lit(prefix), Arg(0, 3, false), Arg(2, 3, false), Arg(1, 8, true));
  }

  lemma BranchWellFormed(cond: string, cc: string)
    requires |cond| == 3 && IsBits(cond) && |cc| == 3 && IsBits(cc)
    ensures WellFormed(Branch(cond, cc))
  {
    FixedBits();
    Layout4(Lit("10"), Lit(cond), Lit(cc), Arg(0, 8, true));
  }

  lemma InWellFormed()
    ensures WellFormed(Input())
  {
    FixedBits();
    Layout5(Lit("11"), Lit("000"), Arg(0, 3, false), Lit("1100"), Lit("0000"));
  }

  lemma OutWellFormed()
    ensures WellFormed(Output())
  {
    FixedBits();
    Layout5(Lit("11"), Arg(0, 3, false), Lit("000"), Lit("1101"), Lit("0000"));
  }

  lemma HltWellFormed()
    ensures WellFormed(Halt())
  {
    FixedBits();
    Layout5(Lit("11"), Lit("000"), Lit("000"), Lit("1111"), Lit("0000"));
  }

  lemma LiWellFormed()
    ensures WellFormed(LoadImmediate())
  {
    FixedBits();
    Layout4(Lit("10"), Lit("000"), Arg(0, 3, false), Arg(1, 8, true));
  }

  lemma AluRows()
    ensures forall i :: 0 <= i < 7 ==> WellFormed(Entry(i).1)
  {
    forall i | 0 <= i < 7
      ensures WellFormed(Entry(i).1)
    {
      if i == 0 { AluWellFormed("0000"); }
      else if i == 1 { AluWellFormed("0001"); }
      else if i == 2 { AluWellFormed("0010"); }
      else if i == 3 { AluWellFormed("0011"); }
      else if i == 4 { AluWellFormed("0100"); }
      else if i == 5 { AluWellFormed("0101"); }
      else { AluWellFormed("0110"); }
    }
  }

  lemma ShiftRows()
    ensures forall i :: 7 <= i < 11 ==> WellFormed(Entry(i).1)
  {
    forall i | 7 <= i < 11
      ensures WellFormed(Entry(i).1)
    {
      if i == 7 { ShiftWellFormed("1000"); }
      else if i == 8 { ShiftWellFormed("1001"); }
      else if i == 9 { ShiftWellFormed("1010"); }
      else { ShiftWellFormed("1011"); }
    }
  }

  lemma ControlRows()
    ensures forall i :: 11 <= i < 17 ==> WellFormed(Entry(i).1)
  {
    forall i | 11 <= i < 17
      ensures WellFormed(Entry(i).1)
    {
      if i == 11 { InWellFormed(); }
      else if i == 12 { OutWellFormed(); }
      else if i == 13 { HltWellFormed(); }
      else if i == 14 { MemoryWellFormed("00"); }
      else if i == 15 { MemoryWellFormed("01"); }
      else { LiWellFormed(); }
    }
  }

  lemma BranchRows()
    ensures forall i :: 17 <= i < 22 ==> WellFormed(Entry(i).1)
  {
    forall i | 17 <= i < 22
      ensures WellFormed(Entry(i).1)
    {
      if i == 17 { BranchWellFormed("100", "000"); }
      else if i == 18 { BranchWellFormed("111", "000"); }
      else if i == 19 { BranchWellFormed("111", "001"); }
      else if i == 20 { BranchWellFormed("111", "010"); }
      else { BranchWellFormed("111", "011"); }
    }
  }

  /** Every entry of the table yields 16 bits and uses each of its operands exactly once. */
  lemma EntriesWellFormed()
    ensures forall i :: 0 <= i < Size ==> WellFormed(Entry(i).1)
  {
    AluRows();
    ShiftRows();
    ControlRows();
    BranchRows();
  }

  lemma TableNames()
    ensures forall i :: 0 <= i < Size ==> Capitals(Entry(i).0)
  {
  }

  /** A mnemonic that is found names one of the entries. */
  lemma {:induction false} FindEntry(i: nat, cmd: string)
    requires FindFrom(i, cmd).Some?
    ensures exists j :: i <= j < Size && Entry(j) == (cmd, FindFrom(i, cmd).value)
    decreases Size - i
  {
    if Entry(i).0 != cmd {
      FindEntry(i + 1, cmd);
    }
  }

  /** The entry at position k is found when no entry between i and k has its name. */
  lemma {:induction false} FindAt(i: nat, k: nat, cmd: string)
    requires i <= k < Size && Entry(k).0 == cmd
    requires forall j :: i <= j < k ==> Entry(j).0 != cmd
    ensures FindFrom(i, cmd) == Some(Entry(k).1)
    decreases k - i
  {
    if i < k {
      FindAt(i + 1, k, cmd);
    }
  }

  /** The 22 keys of the dictionary are pairwise different. */
  lemma NamesDistinct()
    ensures forall i, j :: 0 <= i < j < Size ==> Entry(i).0 != Entry(j).0
  {
    forall i, j | 0 <= i < j < Size
      ensures Entry(i).0 != Entry(j).0
    {
      if i < 7 {
        if j < 7 { } else if j < 11 { } else if j < 17 { } else { }
      } else if i < 11 {
        if j < 11 { } else if j < 17 { } else { }
      } else if i < 17 {
        if j < 17 { } else { }
      } else { }
    }
  }

  /** `inst[cmd]` is s exactly when the table has the entry (cmd, s). */
  lemma InstEntry(cmd: string, s: OpSpec)
    ensures Inst(cmd) == Some(s) <==> exists j :: 0 <= j < Size && Entry(j) == (cmd, s)
  {
    if Inst(cmd) == Some(s) {
      FindEntry(0, cmd);
    }
    if exists j :: 0 <= j < Size && Entry(j) == (cmd, s) {
      var j :| 0 <= j < Size && Entry(j) == (cmd, s);
      NamesDistinct();
      FindAt(0, j, cmd);
    }
  }

  lemma TableWellFormed(cmd: string)
    requires Inst(cmd).Some?
    ensures WellFormed(Inst(cmd).value)
  {
    FindEntry(0, cmd);
    EntriesWellFormed();
  }

  // ------------------------------------------------------------- laws and examples

  /** A word that does not start with a capital letter is never looked up in the table: numbers are data words. */
  lemma NotMnemonic(cmd: string)
    requires cmd != [] && !('A' <= cmd[0] <= 'Z')
    ensures Inst(cmd).None?
  {
    assert !Capitals(cmd);
  }

  /** A raw data word looks at no operand. */
  lemma DataWordIgnoresOperands(cmd: string, args: seq<int>)
    requires cmd != [] && Inst(cmd).None?
    ensures Encode(cmd, args) == Encode(cmd, [])
  {
  }

  /** The arity check comes before any field: a wrong count is reported even when operands are out of range. */
  lemma ArityFirst(cmd: string, args: seq<int>)
    requires Inst(cmd).Some? && |args| != Inst(cmd).value.arity
    ensures Encode(cmd, args) == Err(WrongArgCount(Inst(cmd).value.arity, |args|))
  {
  }

  lemma {:induction false} ThreeBits(s: string, n: nat)
    requires |s| == 3 && IsBits(s) && n == 4 * BitValue(s[0]) + 2 * BitValue(s[1]) + BitValue(s[2])
    ensures ToBinary(n, 3, false) == Ok(s)
  {
    assert s[..2][..1][..0] == [];
    assert Unsigned(s[..2][..1]) == BitValue(s[0]);
    assert Unsigned(s[..2]) == 2 * BitValue(s[0]) + BitValue(s[1]);
    assert Unsigned(s) == n;
    FromBinaryRoundTrip(s, false);
  }

  /** Registers 1 and 2 in three bits. */
  lemma SmallRegisters()
    ensures ToBinary(1, 3, false) == Ok("001") && ToBinary(2, 3, false) == Ok("010")
  {
    ThreeBits("001", 1);
    ThreeBits("010", 2);
  }

  lemma DisplacementField()
    ensures EncodeFields([Arg(1, 8, true)], [1, -1, 2]) == Ok("11111111")
  {
    assert [Arg(1, 8, true)][1..] == [];
    MinusOneExample();
    assert "11111111" + [] == "11111111";
  }

  lemma RegisterFields()
    ensures EncodeFields([Arg(0, 3, false), Arg(2, 3, false), Arg(1, 8, true)], [1, -1, 2]) == Ok("001" + ("010" + "11111111"))
  {
    var l := [Arg(0, 3, false), Arg(2, 3, false), Arg(1, 8, true)];
    assert l[1..] == [Arg(2, 3, false), Arg(1, 8, true)];
    assert l[1..][1..] == [Arg(1, 8, true)];
    DisplacementField();
    SmallRegisters();
  }

  lemma AddLookup()
    ensures Inst("ADD") == Some(Alu("0000"))
  {
    FindAt(0, 0, "ADD");
  }

  /** `LD` is the fifteenth entry. */
  lemma LoadLookup()
    ensures Inst("LD") == Some(Memory("00"))
  {
    assert Entry(14) == ("LD", Memory("00"));
    InstEntry("LD", Memory("00"));
  }

  /** `LD 1,-1(2)`: prefix, ra, rb, then the displacement in two's complement. */
  lemma LoadExample()
    ensures Encode("LD", [1, -1, 2]) == Ok("00" + ("001" + ("010" + "11111111")))
  {
    LoadLookup();
    var l := Inst("LD").value.layout;
    assert l == [Lit("00"), Arg(0, 3, false), Arg(2, 3, false), Arg(1, 8, true)];
    assert l[1..] == [Arg(0, 3, false), Arg(2, 3, false), Arg(1, 8, true)];
    RegisterFields();
  }

  /** `ADD 1,2`: the source register comes before the destination. */
  lemma AddExample()
    ensures Encode("ADD", [1, 2]) == Ok("11" + ("010" + ("001" + ("0000" + "0000"))))
  {
    var args := [1, 2];
    AddLookup();
    var l := Inst("ADD").value.layout;
    assert l == [Lit("11"), Arg(1, 3, false), Arg(0, 3, false), Lit("0000"), Lit("0000")];
    assert l[1..] == [Arg(1, 3, false), Arg(0, 3, false), Lit("0000"), Lit("0000")];
    assert l[1..][1..] == [Arg(0, 3, false), Lit("0000"), Lit("0000")];
    assert l[1..][1..][1..] == [Lit("0000"), Lit("0000")];
    assert l[1..][1..][1..][1..] == [Lit("0000")];
    assert l[1..][1..][1..][1..][1..] == [];
    SmallRegisters();
    assert EncodeFields(l[1..][1..][1..][1..][1..], args) == Ok([]);
    assert "0000" + [] == "0000";
    assert EncodeFields(l[1..][1..][1..][1..], args) == Ok("0000");
    assert EncodeFields(l[1..][1..][1..], args) == Ok("0000" + "0000");
    assert EncodeFields(l[1..][1..], args) == Ok("001" + ("0000" + "0000"));
    assert EncodeFields(l[1..], args) == Ok("010" + ("001" + ("0000" + "0000")));
  }

  /** Register 8 does not fit three bits; with two bad registers the source register, evaluated first, is reported. */
  lemma RegisterRangeExample()
    ensures Encode("ADD", [8, 1]) == Err(OutOfRange(8))
    ensures Encode("ADD", [8, 9]) == Err(OutOfRange(9))
  {
    var one, both := [8, 1], [8, 9];
    AddLookup();
    var l := Inst("ADD").value.layout;
    assert l == [Lit("11"), Arg(1, 3, false), Arg(0, 3, false), Lit("0000"), Lit("0000")];
    assert l[1..] == [Arg(1, 3, false), Arg(0, 3, false), Lit("0000"), Lit("0000")];
    assert l[1..][1..] == [Arg(0, 3, false), Lit("0000"), Lit("0000")];
    assert Pow2(3) == 8;
    assert ToBinary(8, 3, false) == Err(8) && ToBinary(9, 3, false) == Err(9);
    assert EncodeFields(l[1..][1..], one) == Err(8);
    assert EncodeFields(l[1..], one) == Err(8);
    assert EncodeFields(l[1..], both) == Err(9);
  }

  /** `-1` as a data word is sixteen ones, whatever operands follow it. */
  lemma MinusOneWord()
    ensures Encode("-1", [7]) == Ok("1111111111111111")
  {
    var cmd, w := "-1", "1111111111111111";
    assert IsDataWord(cmd) && DataValue(cmd) == -1 by {
      assert !IsDigit(cmd[0]);
      assert cmd[1..] == "1";
      assert DigitsValue("1") == 1 by { assert "1"[..0] == []; }
    }
    NotMnemonic(cmd);
    assert Unsigned(w) == Pow2(16) - 1 by { AllOnes(w); }
    FromBinaryRoundTrip(w, true);
  }

  lemma BigValue()
    ensures IsDataWord("32768") && DataValue("32768") == 32768
  {
    var cmd := "32768";
    assert AllDigits(cmd);
    assert DigitsValue("3") == 3 by { assert "3"[..0] == []; }
    assert DigitsValue("32") == 32 by { assert "32"[..1] == "3"; }
    assert DigitsValue("327") == 327 by { assert "327"[..2] == "32"; }
    assert DigitsValue("3276") == 3276 by { assert "3276"[..3] == "327"; }
    assert DigitsValue(cmd) == 32768 by { assert cmd[..4] == "3276"; }
  }

  /** `32768` does not fit a signed 16-bit word. */
  lemma BigWord()
    ensures Encode("32768", []) == Err(OutOfRange(32768))
  {
    var cmd := "32768";
    BigValue();
    assert !InRange(32768, 16, true) by {
      assert Pow2(4) == 16;
      assert Pow2(8) == 256 by { assert Pow2(8) == 16 * Pow2(4); }
      assert Pow2(15) == 32768 by { assert Pow2(15) == 128 * Pow2(8); }
    }
    NotMnemonic(cmd);
  }

  /** `+5` is neither a mnemonic nor a data word: the sign must be `-`. */
  lemma PlusWord()
    ensures Encode("+5", []) == Err(UnknownCommand("+5"))
  {
    var cmd := "+5";
    assert !IsDataWord(cmd) by { assert !IsDigit(cmd[0]) && cmd[0] != '-'; }
    NotMnemonic(cmd);
  }

  lemma {:induction false} AllOnes(s: string)
    requires forall k :: 0 <= k < |s| ==> s[k] == '1'
    ensures Unsigned(s) == Pow2(|s|) - 1
  {
    if s != [] {
      AllOnes(s[..|s| - 1]);
    }
  }
}
