/**
 * The per-row register of the purchases parser and the classifier that
 * fills it: `parse` looks at one cell and its column header, and writes
 * the field or fields the first matching rule names; `correct_comp_tipo`
 * then fixes the voucher type of an "A" voucher that carries no VAT.
 */
module Registers {
  import opened Wrappers
  import opened Text
  import opened Normalizers

  /** The twelve keys of the register dict. */
  datatype Key =
    | FechaCompra | TipoCompra | PuntoVenta | NroComprobante | IdVendedor | RazonSocial
    | ImpTotalOp | ImpNetoGrav | ImpExIntOt | ImpRsRni | ImpPercepciones | Iva

  /** The register dict: the keys found so far and their normalised text. */
  type Fields = map<Key, string>

  // ---------------------------------------------------------------------
  // Shapes of the normalised values

  predicate IsAmountKey(k: Key) {
    k == ImpTotalOp || k == ImpNetoGrav || k == ImpExIntOt || k == ImpRsRni || k == ImpPercepciones || k == Iva
  }

  /** What the normaliser of key k always produces. */
  predicate FieldShape(k: Key, v: string) {
    match k
    case FechaCompra => |v| == 8 && AllDigits(v)
    case TipoCompra => IsVoucherCode(v)
    case PuntoVenta => |v| == 5 && AllDigits(v)
    case NroComprobante => |v| == 20 && AllDigits(v)
    case IdVendedor => |v| == 20 && AllDigits(v)
    case RazonSocial => |v| >= LegalNameWidth
    case _ => |v| >= AmountWidth
  }

  /** Every field present has the shape its normaliser gives. */
  predicate WellFormed(f: Fields) {
    forall k :: k in f ==> FieldShape(k, f[k])
  }

  // ---------------------------------------------------------------------
  // The classifier, `parse`

  /** The branches of `parse`, named. */
  datatype Rule =
    | DateRule | VoucherTypeRule | VoucherIdRule | NetoGravadoRule | ExIntOtRule | RsRniRule
    | PercepcionRule | CuitRule | LegalNameRule | TotalRule | IvaRule | NoRule

  /** The guard of each branch on its own, regardless of the branches before it. */
  predicate RuleApplies(r: Rule, cell: string, feature: string) {
    match r
    case DateRule => IsDate(cell)
    case VoucherTypeRule => IsVoucherTypeCell(cell, feature)
    case VoucherIdRule => IsVoucherIdCell(cell, feature)
    case NetoGravadoRule => IsNetoGravado(feature, cell)
    case ExIntOtRule => IsExIntOt(feature, cell)
    case RsRniRule => IsRsRni(feature, cell)
    case PercepcionRule => IsPercepcion(feature, cell)
    case CuitRule => IsCuit(cell)
    case LegalNameRule => IsLegalNameColumn(feature)
    case TotalRule => IsTotal(feature, cell)
    case IvaRule => IsIva(feature, cell)
    case NoRule => true
  }

  /** The branch the if/elif chain of `parse` takes for this cell. */
  function FirstRule(cell: string, feature: string): (r: Rule)
    ensures RuleApplies(r, cell, feature)
  {
    if IsDate(cell) then DateRule
    else if IsVoucherTypeCell(cell, feature) then VoucherTypeRule
    else if IsVoucherIdCell(cell, feature) then VoucherIdRule
    else if IsNetoGravado(feature, cell) then NetoGravadoRule
    else if IsExIntOt(feature, cell) then ExIntOtRule
    else if IsRsRni(feature, cell) then RsRniRule
    else if IsPercepcion(feature, cell) then PercepcionRule
    else if IsCuit(cell) then CuitRule
    else if IsLegalNameColumn(feature) then LegalNameRule
    else if IsTotal(feature, cell) then TotalRule
    else if IsIva(feature, cell) then IvaRule
    else NoRule
  }

  /** The branches in the order the if/elif chain tries them. */
  const Chain: seq<Rule> := [
    DateRule, VoucherTypeRule, VoucherIdRule, NetoGravadoRule, ExIntOtRule, RsRniRule,
    PercepcionRule, CuitRule, LegalNameRule, TotalRule, IvaRule, NoRule
  ]

  /** The position of a branch in the chain. */
  function Rank(r: Rule): (k: nat)
    ensures k < |Chain| && Chain[k] == r
  {
    match r
    case DateRule => 0
    case VoucherTypeRule => 1
    case VoucherIdRule => 2
    case NetoGravadoRule => 3
    case ExIntOtRule => 4
    case RsRniRule => 5
    case PercepcionRule => 6
    case CuitRule => 7
    case LegalNameRule => 8
    case TotalRule => 9
    case IvaRule => 10
    case NoRule => 11
  }

  /** The branch taken is the one whose guard holds and whose every predecessor's guard fails. */
  lemma FirstRuleIsFirst(cell: string, feature: string, r: Rule)
    ensures FirstRule(cell, feature) == r <==>
      RuleApplies(r, cell, feature) && forall j :: 0 <= j < Rank(r) ==> !RuleApplies(Chain[j], cell, feature)
  {
    var first := FirstRule(cell, feature);
    forall j | 0 <= j < Rank(first) ensures !RuleApplies(Chain[j], cell, feature) {
      assert Rank(Chain[j]) == j;
      if RuleApplies(Chain[j], cell, feature) {
        NoBranchIsSkipped(Chain[j], cell, feature);
      }
    }
    if first != r && RuleApplies(r, cell, feature) {
      NoBranchIsSkipped(r, cell, feature);
    }
  }

  /** A branch whose guard holds is never passed over: the branch taken comes no later. */
  lemma NoBranchIsSkipped(q: Rule, cell: string, feature: string)
    requires RuleApplies(q, cell, feature)
    ensures Rank(FirstRule(cell, feature)) <= Rank(q)
  {
  }

  /**
   * The body of one branch: the field or fields it assigns, or the
   * exception its normaliser raises.
   */
  function Apply(r: Rule, reg: Fields, cell: string, feature: string): Result<Fields, Fatal>
    requires RuleApplies(r, cell, feature)
  {
    match r
    case DateRule =>
      (match ParseDate(cell)
       case Ok(d) => Ok(reg[FechaCompra := d])
       case Err(e) => Err(e))
    case VoucherTypeRule =>
      (match ParseVoucherType(cell)
       case Some(t) => Ok(reg[TipoCompra := t])
       case None => Err(UnknownVoucherType(cell)))
    case VoucherIdRule =>
      (match ParseVoucherNumber(cell)
       case None => Err(NoVoucherNumber(cell))
       case Some(n) =>
         var r := reg[PuntoVenta := ParsePointOfSale(cell)][NroComprobante := n];
         if IsNetoGravado(feature, cell) then Ok(r[ImpNetoGrav := ParseAmount(SecondToken(cell)).value]) else Ok(r))
    case NetoGravadoRule => Ok(reg[ImpNetoGrav := ParseAmount(SecondToken(cell)).value])
    case ExIntOtRule =>
      var r := reg[ImpExIntOt := ParseAmount(FirstToken(cell)).value];
      if IsRsRni(feature, cell) then Ok(r[ImpRsRni := ParseAmount(SecondToken(cell)).value]) else Ok(r)
    case RsRniRule => Ok(reg[ImpRsRni := ParseAmount(SecondToken(cell)).value])
    case PercepcionRule => Ok(reg[ImpPercepciones := ParseAmount(cell).value])
    case CuitRule =>
      SellerIdOfCuit(cell);
      Ok(reg[IdVendedor := ParseSellerId(cell).value])
    case LegalNameRule => Ok(reg[RazonSocial := ParseLegalName(cell, feature)])
    case TotalRule => Ok(reg[ImpTotalOp := ParseAmount(cell).value])
    case IvaRule => Ok(reg[Iva := ParseAmount(cell).value])
    case NoRule => Ok(reg)
  }

  /**
   * One classification step, `parse(cell, feature, register)`: the first
   * branch whose guard holds runs (a later cell of the same row overwrites
   * what an earlier one wrote), and an escaping exception aborts the run.
   */
  function Classify(reg: Fields, cell: string, feature: string): Result<Fields, Fatal> {
    Apply(FirstRule(cell, feature), reg, cell, feature)
  }

  /** The keys a step under rule r writes for this cell. */
  function WrittenKeys(r: Rule, cell: string, feature: string): set<Key> {
    match r
    case DateRule => {FechaCompra}
    case VoucherTypeRule => {TipoCompra}
    case VoucherIdRule => {PuntoVenta, NroComprobante} + (if IsNetoGravado(feature, cell) then {ImpNetoGrav} else {})
    case NetoGravadoRule => {ImpNetoGrav}
    case ExIntOtRule => {ImpExIntOt} + (if IsRsRni(feature, cell) then {ImpRsRni} else {})
    case RsRniRule => {ImpRsRni}
    case PercepcionRule => {ImpPercepciones}
    case CuitRule => {IdVendedor}
    case LegalNameRule => {RazonSocial}
    case TotalRule => {ImpTotalOp}
    case IvaRule => {Iva}
    case NoRule => {}
  }

  /** Every branch but the last writes one, two or three keys. */
  lemma WrittenKeysCount(r: Rule, cell: string, feature: string)
    ensures var w := WrittenKeys(r, cell, feature);
      |w| <= 3 && (w == {} <==> r == NoRule)
  {
    var w := WrittenKeys(r, cell, feature);
    if r == VoucherIdRule {
      assert |w| == 2 || |w| == 3;
    } else if r == ExIntOtRule {
      assert |w| == 1 || |w| == 2;
    }
  }

  /** A branch that succeeds writes exactly its keys and keeps all others. */
  /** g is reg with the keys w written, or added, and every other key untouched. */
  predicate UpdatesExactly(reg: Fields, g: Fields, w: set<Key>) {
    g.Keys == reg.Keys + w && forall k :: k in reg && k !in w ==> g[k] == reg[k]
  }

  lemma UpdateOne(reg: Fields, k: Key, v: string)
    ensures UpdatesExactly(reg, reg[k := v], {k})
  {
  }

  lemma UpdateTwo(reg: Fields, k1: Key, v1: string, k2: Key, v2: string)
    ensures UpdatesExactly(reg, reg[k1 := v1][k2 := v2], {k1, k2})
  {
  }

  lemma UpdateThree(reg: Fields, k1: Key, v1: string, k2: Key, v2: string, k3: Key, v3: string)
    ensures UpdatesExactly(reg, reg[k1 := v1][k2 := v2][k3 := v3], {k1, k2, k3})
  {
  }

  lemma ApplyWritesItsKeys(r: Rule, reg: Fields, cell: string, feature: string)
    requires RuleApplies(r, cell, feature) && Apply(r, reg, cell, feature).Ok?
    ensures UpdatesExactly(reg, Apply(r, reg, cell, feature).value, WrittenKeys(r, cell, feature))
  {
    match r
    case DateRule => UpdateOne(reg, FechaCompra, ParseDate(cell).value);
    case VoucherTypeRule => UpdateOne(reg, TipoCompra, ParseVoucherType(cell).value);
    case VoucherIdRule =>
      var pv, n := ParsePointOfSale(cell), ParseVoucherNumber(cell).value;
      if IsNetoGravado(feature, cell) {
        UpdateThree(reg, PuntoVenta, pv, NroComprobante, n, ImpNetoGrav, ParseAmount(SecondToken(cell)).value);
      } else {
        UpdateTwo(reg, PuntoVenta, pv, NroComprobante, n);
      }
    case NetoGravadoRule => UpdateOne(reg, ImpNetoGrav, ParseAmount(SecondToken(cell)).value);
    case ExIntOtRule =>
      var x := ParseAmount(FirstToken(cell)).value;
      if IsRsRni(feature, cell) {
        UpdateTwo(reg, ImpExIntOt, x, ImpRsRni, ParseAmount(SecondToken(cell)).value);
      } else {
        UpdateOne(reg, ImpExIntOt, x);
      }
    case RsRniRule => UpdateOne(reg, ImpRsRni, ParseAmount(SecondToken(cell)).value);
    case PercepcionRule => UpdateOne(reg, ImpPercepciones, ParseAmount(cell).value);
    case CuitRule =>
      SellerIdOfCuit(cell);
      UpdateOne(reg, IdVendedor, ParseSellerId(cell).value);
    case LegalNameRule => UpdateOne(reg, RazonSocial, ParseLegalName(cell, feature));
    case TotalRule => UpdateOne(reg, ImpTotalOp, ParseAmount(cell).value);
    case IvaRule => UpdateOne(reg, Iva, ParseAmount(cell).value);
    case NoRule =>
  }


  /**
   * Exactly the first matching branch runs: the step writes the keys of that
   * rule (one key, two or three for the voucher identifier, one or two for
   * the exempt amounts) and leaves every other key as it was; a cell that
   * matches no rule leaves the register unchanged.
   */
  lemma ClassifyWritesOnlyItsRule(reg: Fields, cell: string, feature: string)
    requires Classify(reg, cell, feature).Ok?
    ensures var g := Classify(reg, cell, feature).value;
      var w := WrittenKeys(FirstRule(cell, feature), cell, feature);
      g.Keys == reg.Keys + w &&
      (forall k :: k in reg && k !in w ==> g[k] == reg[k]) &&
      |w| <= 3 && (w == {} <==> FirstRule(cell, feature) == NoRule)
    ensures FirstRule(cell, feature) == NoRule ==> Classify(reg, cell, feature).value == reg
  {
    var r := FirstRule(cell, feature);
    ApplyWritesItsKeys(r, reg, cell, feature);
    WrittenKeysCount(r, cell, feature);
  }

  /**
   * Only three rules can abort the run: a date before 1900, a voucher-type
   * cell that matches none of the seven patterns, and a voucher identifier
   * with no dash and eight digits.
   */
  lemma ClassifyFailures(reg: Fields, cell: string, feature: string)
    ensures var r := FirstRule(cell, feature);
      Classify(reg, cell, feature).Err? <==>
        (r == DateRule && DateParts(cell).value.year < 1900) ||
        (r == VoucherTypeRule && ParseVoucherType(cell).None?) ||
        (r == VoucherIdRule && ParseVoucherNumber(cell).None?)
    ensures Classify(reg, cell, feature).Err? ==>
      Classify(reg, cell, feature).error in {DateBefore1900(cell), UnknownVoucherType(cell), NoVoucherNumber(cell)}
  {
  }

  /** An invoice-type cell in the voucher column that names no known class aborts the run. */
  lemma UnknownVoucherTypeAborts(reg: Fields, cell: string, feature: string)
    requires !IsDate(cell) && IsVoucherTypeCell(cell, feature)
    requires forall k :: 0 <= k < |VoucherTable| ==> !MatchesClass(cell, VoucherTable[k])
    ensures Classify(reg, cell, feature) == Err(UnknownVoucherType(cell))
  {
    ParseVoucherTypeIsFirstMatch(cell);
  }

  /** The date rule ignores the header: a date cell is read the same under any column. */
  lemma DateRuleIgnoresHeader(reg: Fields, cell: string, feature1: string, feature2: string)
    requires IsDate(cell)
    ensures Classify(reg, cell, feature1) == Classify(reg, cell, feature2)
    ensures FirstRule(cell, feature1) == DateRule
  {
  }

  lemma DotFreeTokens(cell: string)
    requires '.' !in cell
    ensures SplitNumber(cell).None? && SplitNumber(FirstToken(cell)).None? && SplitNumber(SecondToken(cell)).None?
  {
    TokensMeaning(cell);
    var f := FirstToken(cell);
    var t := SecondToken(cell);
    assert '.' !in f by {
      assert forall i :: 0 <= i < |f| ==> f[i] == cell[i];
    }
    if ' ' in cell {
      assert forall i :: 0 <= i < |t| ==> t[i] == cell[|f| + 1 + i];
    }
    assert '.' !in t;
    CountZero(cell, '.');
    CountZero(f, '.');
    CountZero(t, '.');
    SplitNumberMeaning(cell);
    SplitNumberMeaning(f);
    SplitNumberMeaning(t);
  }

  /**
   * The CUIT rule ignores the header: a cell that starts with a CUIT and
   * has no '.' and no voucher-kind text sets the seller id under any column.
   */
  lemma CuitRuleIgnoresHeader(reg: Fields, cell: string, feature: string)
    requires IsCuit(cell) && '.' !in cell
    requires !Contains(cell, "FAC") && !Contains(cell, "NCR") && !Contains(cell, "NDE")
    ensures FirstRule(cell, feature) == CuitRule
    ensures Classify(reg, cell, feature) == Ok(reg[IdVendedor := Repeat('0', 9) + cell[0..2] + cell[3..11] + cell[12..13]])
  {
    SellerIdOfCuit(cell);
    DotFreeTokens(cell);
    assert !IsDate(cell) by {
      FirstPiece(cell, '/');
      var p := SplitOn(cell, '/');
      if |p| == 3 {
        assert |p[0]| < |cell|;
        assert cell[|p[0]|] == '/';
        assert |p[0]| > 2;
      }
    }
    assert !StartsWithPointOfSale(cell) by {
      assert !IsDigit(cell[2]);
      assert cell[..4][2] == cell[2];
    }
  }

  lemma WellFormedUpdate(f: Fields, k: Key, v: string)
    requires WellFormed(f) && FieldShape(k, v)
    ensures WellFormed(f[k := v])
  {
  }

  /** Classification keeps every field in the shape its normaliser gives. */
  lemma ClassifyKeepsShapes(reg: Fields, cell: string, feature: string)
    requires WellFormed(reg)
    requires Classify(reg, cell, feature).Ok?
    ensures WellFormed(Classify(reg, cell, feature).value)
  {
    ApplyKeepsShapes(FirstRule(cell, feature), reg, cell, feature);
  }

  lemma ApplyKeepsShapes(r: Rule, reg: Fields, cell: string, feature: string)
    requires WellFormed(reg)
    requires RuleApplies(r, cell, feature) && Apply(r, reg, cell, feature).Ok?
    ensures WellFormed(Apply(r, reg, cell, feature).value)
  {
    if IsAmountRule(r) {
      ApplyKeepsAmountShapes(r, reg, cell, feature);
    } else {
      ApplyKeepsTextShapes(r, reg, cell, feature);
    }
  }

  /** The rules that write amount fields. */
  predicate IsAmountRule(r: Rule) {
    r.NetoGravadoRule? || r.ExIntOtRule? || r.RsRniRule? || r.PercepcionRule? || r.TotalRule? || r.IvaRule?
  }

  lemma ApplyKeepsAmountShapes(r: Rule, reg: Fields, cell: string, feature: string)
    requires WellFormed(reg) && IsAmountRule(r)
    requires RuleApplies(r, cell, feature) && Apply(r, reg, cell, feature).Ok?
    ensures WellFormed(Apply(r, reg, cell, feature).value)
  {
    var g := Apply(r, reg, cell, feature).value;
    match r
    case NetoGravadoRule =>
      var neto := ParseAmount(SecondToken(cell)).value;
      AmountShape(SecondToken(cell));
      WellFormedUpdate(reg, ImpNetoGrav, neto);
      assert g == reg[ImpNetoGrav := neto];
    case ExIntOtRule =>
      var x := ParseAmount(FirstToken(cell)).value;
      AmountShape(FirstToken(cell));
      var r1 := reg[ImpExIntOt := x];
      WellFormedUpdate(reg, ImpExIntOt, x);
      if IsRsRni(feature, cell) {
        var y := ParseAmount(SecondToken(cell)).value;
        AmountShape(SecondToken(cell));
        WellFormedUpdate(r1, ImpRsRni, y);
        assert g == r1[ImpRsRni := y];
      } else {
        assert g == r1;
      }
    case RsRniRule =>
      var y := ParseAmount(SecondToken(cell)).value;
      AmountShape(SecondToken(cell));
      WellFormedUpdate(reg, ImpRsRni, y);
      assert g == reg[ImpRsRni := y];
    case PercepcionRule =>
      var p := ParseAmount(cell).value;
      AmountShape(cell);
      WellFormedUpdate(reg, ImpPercepciones, p);
      assert g == reg[ImpPercepciones := p];
    case TotalRule =>
      var total := ParseAmount(cell).value;
      AmountShape(cell);
      WellFormedUpdate(reg, ImpTotalOp, total);
      assert g == reg[ImpTotalOp := total];
    case IvaRule =>
      var iva := ParseAmount(cell).value;
      AmountShape(cell);
      WellFormedUpdate(reg, Iva, iva);
      assert g == reg[Iva := iva];
  }

  lemma ApplyKeepsTextShapes(r: Rule, reg: Fields, cell: string, feature: string)
    requires WellFormed(reg) && !IsAmountRule(r)
    requires RuleApplies(r, cell, feature) && Apply(r, reg, cell, feature).Ok?
    ensures WellFormed(Apply(r, reg, cell, feature).value)
  {
    var g := Apply(r, reg, cell, feature).value;
    match r
    case DateRule =>
      var d := ParseDate(cell).value;
      ParseDateMeaning(cell);
      WellFormedUpdate(reg, FechaCompra, d);
      assert g == reg[FechaCompra := d];
    case VoucherTypeRule =>
      var t := ParseVoucherType(cell).value;
      ParseVoucherTypeCodes(cell);
      WellFormedUpdate(reg, TipoCompra, t);
      assert g == reg[TipoCompra := t];
    case VoucherIdRule =>
      var pv, n := ParsePointOfSale(cell), ParseVoucherNumber(cell).value;
      var r1 := reg[PuntoVenta := pv];
      WellFormedUpdate(reg, PuntoVenta, pv);
      WellFormedUpdate(r1, NroComprobante, n);
      if IsNetoGravado(feature, cell) {
        var neto := ParseAmount(SecondToken(cell)).value;
        AmountShape(SecondToken(cell));
        WellFormedUpdate(r1[NroComprobante := n], ImpNetoGrav, neto);
        assert g == r1[NroComprobante := n][ImpNetoGrav := neto];
      } else {
        assert g == r1[NroComprobante := n];
      }
    case CuitRule =>
      SellerIdOfCuit(cell);
      var id := ParseSellerId(cell).value;
      WellFormedUpdate(reg, IdVendedor, id);
      assert g == reg[IdVendedor := id];
    case LegalNameRule =>
      var name := ParseLegalName(cell, feature);
      LegalNameMeaning(cell, feature);
      WellFormedUpdate(reg, RazonSocial, name);
      assert g == reg[RazonSocial := name];
    case NoRule =>
  }

  // ---------------------------------------------------------------------
  // Validity and correction

  /** `is_valid_register`: all twelve keys are present. */
  predicate IsValidRegister(f: Fields) {
    FechaCompra in f && TipoCompra in f && PuntoVenta in f && NroComprobante in f &&
    IdVendedor in f && RazonSocial in f && ImpTotalOp in f && ImpNetoGrav in f &&
    ImpExIntOt in f && ImpRsRni in f && ImpPercepciones in f && Iva in f
  }

  /** The register is valid exactly when every key of the enumeration is present. */
  lemma ValidIffEveryKey(f: Fields)
    ensures IsValidRegister(f) <==> forall k: Key :: k in f
  {
    if IsValidRegister(f) {
      forall k: Key ensures k in f {
        match k
        case FechaCompra =>
        case TipoCompra =>
        case PuntoVenta =>
        case NroComprobante =>
        case IdVendedor =>
        case RazonSocial =>
        case ImpTotalOp =>
        case ImpNetoGrav =>
        case ImpExIntOt =>
        case ImpRsRni =>
        case ImpPercepciones =>
        case Iva =>
      }
    }
  }

  /** `is_A` (and `has_alicuotas`): an "A" voucher, that is an invoice, debit note or credit note of class A. */
  predicate IsA(f: Fields)
    requires TipoCompra in f
  {
    f[TipoCompra] == "001" || f[TipoCompra] == "002" || f[TipoCompra] == "003"
  }

  /**
   * `correct_comp_tipo`: an "A" voucher with a taxed base above zero and
   * zero VAT becomes "011". The `and` short-circuits, so `int()` reads the
   * taxed base only for an "A" voucher and the VAT only after a positive
   * base; an `int()` that raises aborts the run.
   */
  function Corrected(f: Fields): Result<Fields, Fatal>
    requires TipoCompra in f && ImpNetoGrav in f && Iva in f
  {
    if !IsA(f) then Ok(f)
    else
      match ParseInt(f[ImpNetoGrav])
      case None => Err(NotAnInteger(f[ImpNetoGrav]))
      case Some(neto) =>
        if neto <= 0 then Ok(f)
        else
          match ParseInt(f[Iva])
          case None => Err(NotAnInteger(f[Iva]))
          case Some(iva) => if iva == 0 then Ok(f[TipoCompra := "011"]) else Ok(f)
  }

  /** A correction that succeeds keeps the register or relabels an "A" voucher as 011. */
  lemma CorrectedCases(f: Fields)
    requires TipoCompra in f && ImpNetoGrav in f && Iva in f
    requires Corrected(f).Ok?
    ensures Corrected(f).value == f || (IsA(f) && Corrected(f).value == f[TipoCompra := "011"])
  {
    if !IsA(f) {
      assert Corrected(f) == Ok(f);
    } else {
      var neto := ParseInt(f[ImpNetoGrav]).value;
      if neto <= 0 {
        assert Corrected(f) == Ok(f);
      } else if ParseInt(f[Iva]).value == 0 {
        assert Corrected(f) == Ok(f[TipoCompra := "011"]);
      } else {
        assert Corrected(f) == Ok(f);
      }
    }
  }

  /** The correction changes at most the voucher type, and only from 001, 002 or 003 to 011. */
  lemma CorrectionChangesOnlyType(f: Fields)
    requires TipoCompra in f && ImpNetoGrav in f && Iva in f
    requires Corrected(f).Ok?
    ensures var g := Corrected(f).value;
      g.Keys == f.Keys && (forall k :: k in f && k != TipoCompra ==> g[k] == f[k]) &&
      (g[TipoCompra] != f[TipoCompra] ==> IsA(f) && g[TipoCompra] == "011")
  {
    CorrectedCases(f);
    var g := Corrected(f).value;
    if g != f {
      assert g.Keys == f.Keys;
    }
  }

  /**
   * On digit-only amounts the correction never fails, and the type changes
   * exactly when it is an "A" type, the taxed base has a non-zero digit and
   * the VAT is all zeros.
   */
  lemma CorrectionCondition(f: Fields)
    requires TipoCompra in f && ImpNetoGrav in f && Iva in f
    requires |f[ImpNetoGrav]| > 0 && AllDigits(f[ImpNetoGrav]) && |f[Iva]| > 0 && AllDigits(f[Iva])
    ensures Corrected(f).Ok?
    ensures Corrected(f).value[TipoCompra] != f[TipoCompra] <==>
      IsA(f) && (exists i :: 0 <= i < |f[ImpNetoGrav]| && f[ImpNetoGrav][i] != '0') &&
      (forall i :: 0 <= i < |f[Iva]| ==> f[Iva][i] == '0')
  {
    ParseIntOfDigits(f[ImpNetoGrav]);
    ParseIntOfDigits(f[Iva]);
    DigitsValueZero(f[ImpNetoGrav]);
    DigitsValueZero(f[Iva]);
  }

  /** Only the `int()` calls abort the correction, and only for an "A" voucher. */
  lemma CorrectionFailures(f: Fields)
    requires TipoCompra in f && ImpNetoGrav in f && Iva in f
    ensures Corrected(f).Err? <==>
      IsA(f) && (ParseInt(f[ImpNetoGrav]).None? ||
                 (ParseInt(f[ImpNetoGrav]).value > 0 && ParseInt(f[Iva]).None?))
  {
  }

  /** Correcting twice is correcting once. */
  lemma CorrectionIdempotent(f: Fields)
    requires TipoCompra in f && ImpNetoGrav in f && Iva in f
    requires Corrected(f).Ok?
    ensures var g := Corrected(f).value;
      TipoCompra in g && ImpNetoGrav in g && Iva in g && Corrected(g) == Ok(g)
  {
  }

  /** After the correction no "A" voucher has a positive taxed base and zero VAT. */
  lemma CorrectedIsConsistent(f: Fields)
    requires TipoCompra in f && ImpNetoGrav in f && Iva in f
    requires Corrected(f).Ok?
    ensures var g := Corrected(f).value;
      IsA(g) && ParseInt(g[ImpNetoGrav]).Some? && ParseInt(g[ImpNetoGrav]).value > 0 ==> ParseInt(g[Iva]) != Some(0)
  {
    var g := Corrected(f).value;
    if g != f {
      assert g[TipoCompra] == "011";
      assert !IsA(g);
    }
  }

  lemma CorrectionKeepsShapes(f: Fields)
    requires TipoCompra in f && ImpNetoGrav in f && Iva in f
    requires WellFormed(f) && Corrected(f).Ok?
    ensures WellFormed(Corrected(f).value)
  {
    var g := Corrected(f).value;
    if g != f {
      WellFormedUpdate(f, TipoCompra, "011");
    }
  }

  /** A field of n written as digits reads back as n. */
  lemma FieldValue(n: nat)
    requires n < Pow10(AmountWidth)
    ensures ParseInt(DigitsOf(n, AmountWidth)) == Some(n)
  {
    ParseIntOfDigits(DigitsOf(n, AmountWidth));
    DigitsOfValue(n, AmountWidth);
  }

  /**
   * For amounts written as 15-digit fields the correction reads them as
   * numbers: an "A" voucher becomes 011 exactly when its taxed base is
   * above zero and its VAT is zero (a base of 1.00 and no VAT, the fields
   * 000000000000100 and 000000000000000, turns 001 into 011).
   */
  lemma CorrectionOnAmounts(f: Fields, neto: nat, iva: nat)
    requires TipoCompra in f && ImpNetoGrav in f && Iva in f
    requires neto < Pow10(AmountWidth) && iva < Pow10(AmountWidth)
    requires f[ImpNetoGrav] == DigitsOf(neto, AmountWidth) && f[Iva] == DigitsOf(iva, AmountWidth)
    ensures Corrected(f) == if IsA(f) && neto > 0 && iva == 0 then Ok(f[TipoCompra := "011"]) else Ok(f)
  {
    FieldValue(neto);
    FieldValue(iva);
  }

  // ---------------------------------------------------------------------
  // The register as the source keeps it: a dict mutated in place

  class Register {
    var fields: Fields

    /** `register = {}`. */
    constructor ()
      ensures fields == map[]
    {
      fields := map[];
    }

    /** `parse(cell, feature, register)`: the classification step applied in place. */
    method Parse(cell: string, feature: string) returns (failure: Option<Fatal>)
      modifies this
      ensures Classify(old(fields), cell, feature).Ok? ==>
        failure == None && fields == Classify(old(fields), cell, feature).value
      ensures Classify(old(fields), cell, feature).Err? ==>
        failure == Some(Classify(old(fields), cell, feature).error)
    {
      failure := None;
      if IsDate(cell) {
        var d := ParseDate(cell);
        if d.Err? {
          return Some(d.error);
        }
        fields := fields[FechaCompra := d.value];
      } else if IsVoucherTypeCell(cell, feature) {
        var t := ParseVoucherType(cell);
        if t.None? {
          return Some(UnknownVoucherType(cell));
        }
        fields := fields[TipoCompra := t.value];
      } else if IsVoucherIdCell(cell, feature) {
        fields := fields[PuntoVenta := ParsePointOfSale(cell)];
        var n := ParseVoucherNumber(cell);
        if n.None? {
          return Some(NoVoucherNumber(cell));
        }
        fields := fields[NroComprobante := n.value];
        if IsNetoGravado(feature, cell) {
          fields := fields[ImpNetoGrav := ParseAmount(SecondToken(cell)).value];
        }
      } else if IsNetoGravado(feature, cell) {
        fields := fields[ImpNetoGrav := ParseAmount(SecondToken(cell)).value];
      } else if IsExIntOt(feature, cell) {
        fields := fields[ImpExIntOt := ParseAmount(FirstToken(cell)).value];
        if IsRsRni(feature, cell) {
          fields := fields[ImpRsRni := ParseAmount(SecondToken(cell)).value];
        }
      } else if IsRsRni(feature, cell) {
        fields := fields[ImpRsRni := ParseAmount(SecondToken(cell)).value];
      } else if IsPercepcion(feature, cell) {
        fields := fields[ImpPercepciones := ParseAmount(cell).value];
      } else if IsCuit(cell) {
        SellerIdOfCuit(cell);
        fields := fields[IdVendedor := ParseSellerId(cell).value];
      } else if IsLegalNameColumn(feature) {
        fields := fields[RazonSocial := ParseLegalName(cell, feature)];
      } else if IsTotal(feature, cell) {
        fields := fields[ImpTotalOp := ParseAmount(cell).value];
      } else if IsIva(feature, cell) {
        fields := fields[Iva := ParseAmount(cell).value];
      }
    }

    /** `correct_comp_tipo(register)`: the correction applied in place. */
    method CorrectCompTipo() returns (failure: Option<Fatal>)
      requires TipoCompra in fields && ImpNetoGrav in fields && Iva in fields
      modifies this
      ensures Corrected(old(fields)).Ok? ==>
        failure == None && fields == Corrected(old(fields)).value
      ensures Corrected(old(fields)).Err? ==>
        failure == Some(Corrected(old(fields)).error) && fields == old(fields)
    {
      failure := None;
      if IsA(fields) {
        var neto := ParseInt(fields[ImpNetoGrav]);
        if neto.None? {
          return Some(NotAnInteger(fields[ImpNetoGrav]));
        }
        if neto.value > 0 {
          var iva := ParseInt(fields[Iva]);
          if iva.None? {
            return Some(NotAnInteger(fields[Iva]));
          }
          if iva.value == 0 {
            fields := fields[TipoCompra := "011"];
          }
        }
      }
    }
  }
}
