/**
 * The two fixed-width records of the purchases ledger: the voucher record
 * `print_cbte_output` writes and the VAT-rate record
 * `print_alicuotas_output` writes, both field by field onto an open file,
 * each ending with CRLF.
 */
module Encoder {
  import opened Wrappers
  import opened Text
  import opened Normalizers
  import opened Registers

  /** A text file open for writing: everything written to it so far. */
  class OutputFile {
    var text: string

    constructor ()
      ensures text == ""
    {
      text := "";
    }

    /** `output_file.write(s)`: appends s. */
    method Write(s: string)
      modifies this
      ensures text == old(text) + s
    {
      text := text + s;
    }
  }

  const CRLF: string := "\r\n"

  /** Characters of a voucher record before its CRLF. */
  const CbteWidth: nat := 325

  /** Characters of a VAT-rate record before its CRLF. */
  const AlicuotaWidth: nat := 84

  function Zeros(n: nat): string { Repeat('0', n) }

  function Spaces(n: nat): string { Repeat(' ', n) }

  // ---------------------------------------------------------------------
  // The voucher record, in the order `print_cbte_output` writes it

  /** Date, voucher type, point of sale, voucher number and the 16-space import-clearance field. */
  function CbteIdentification(f: Fields): string
    requires IsValidRegister(f)
  {
    f[FechaCompra] + f[TipoCompra] + f[PuntoVenta] + f[NroComprobante] + Spaces(16)
  }

  /** Document code 80 (CUIT), the seller id and the legal name. */
  function CbteSeller(f: Fields): string
    requires IsValidRegister(f)
  {
    "80" + f[IdVendedor] + f[RazonSocial]
  }

  /** The non-categorised-operations amount is written only for type 001; otherwise 15 zeros. */
  function RsRniField(f: Fields): string
    requires IsValidRegister(f)
  {
    if f[TipoCompra] == "001" then f[ImpRsRni] else Zeros(15)
  }

  /** Total, exempt, non-categorised and perceptions amounts, then four 15-zero tax fields. */
  function CbteAmounts(f: Fields): string
    requires IsValidRegister(f)
  {
    f[ImpTotalOp] + f[ImpExIntOt] + RsRniField(f) + f[ImpPercepciones] +
    Zeros(15) + Zeros(15) + Zeros(15) + Zeros(15)
  }

  /** The count of VAT rates: one exactly for the vouchers that get a VAT-rate record. */
  function VatCount(f: Fields): string
    requires IsValidRegister(f)
  {
    if IsA(f) then "1" else "0"
  }

  /** Currency PES, exchange rate 0001000000, the VAT-rate count and operation code 0. */
  function CbteCurrency(f: Fields): string
    requires IsValidRegister(f)
  {
    "PES" + "0001000000" + VatCount(f) + "0"
  }

  /** The VAT amount, the empty other-taxes, broker and commission fields, and CRLF. */
  function CbteTaxes(f: Fields): string
    requires IsValidRegister(f)
  {
    f[Iva] + Zeros(15) + Zeros(11) + Spaces(30) + Zeros(15) + CRLF
  }

  /** The voucher record of a complete register. */
  function CbteLine(f: Fields): string
    requires IsValidRegister(f)
  {
    CbteIdentification(f) + CbteSeller(f) + CbteAmounts(f) + CbteCurrency(f) + CbteTaxes(f)
  }

  /** The VAT-rate record: written only for an "A" voucher, with rate code 0005 (21%). */
  function AlicuotaLine(f: Fields): string
    requires IsValidRegister(f)
  {
    if !IsA(f) then ""
    else f[TipoCompra] + f[PuntoVenta] + f[NroComprobante] + "80" + f[IdVendedor] + f[ImpNetoGrav] + "0005" + f[Iva] + CRLF
  }

  /** The normalised values that are not fixed by their normaliser have their nominal width. */
  predicate NominalCbteWidths(f: Fields)
    requires IsValidRegister(f)
  {
    |f[RazonSocial]| == LegalNameWidth && |f[ImpTotalOp]| == AmountWidth && |f[ImpExIntOt]| == AmountWidth &&
    (f[TipoCompra] == "001" ==> |f[ImpRsRni]| == AmountWidth) &&
    |f[ImpPercepciones]| == AmountWidth && |f[Iva]| == AmountWidth
  }

  predicate NominalAlicuotaWidths(f: Fields)
    requires IsValidRegister(f)
  {
    |f[ImpNetoGrav]| == AmountWidth && |f[Iva]| == AmountWidth
  }

  /**
   * A voucher record of a well-formed register is at least 325 characters
   * plus CRLF, and exactly that when the names and amounts have their
   * nominal widths; longer values are written whole and widen the line.
   */
  lemma CbteLength(f: Fields)
    requires IsValidRegister(f) && WellFormed(f)
    ensures |CbteLine(f)| >= CbteWidth + |CRLF|
    ensures |CbteLine(f)| == CbteWidth + |CRLF| <==> NominalCbteWidths(f)
    ensures CbteLine(f)[|CbteLine(f)| - 2..] == CRLF
  {
    assert FieldShape(FechaCompra, f[FechaCompra]);
    assert FieldShape(TipoCompra, f[TipoCompra]);
    assert FieldShape(PuntoVenta, f[PuntoVenta]);
    assert FieldShape(NroComprobante, f[NroComprobante]);
    assert FieldShape(IdVendedor, f[IdVendedor]);
    assert FieldShape(RazonSocial, f[RazonSocial]);
    assert FieldShape(ImpTotalOp, f[ImpTotalOp]);
    assert FieldShape(ImpExIntOt, f[ImpExIntOt]);
    assert FieldShape(ImpRsRni, f[ImpRsRni]);
    assert FieldShape(ImpPercepciones, f[ImpPercepciones]);
    assert FieldShape(Iva, f[Iva]);
    var head := CbteIdentification(f) + CbteSeller(f) + CbteAmounts(f) + CbteCurrency(f);
    var taxes := CbteTaxes(f);
    assert |CbteIdentification(f)| == 52;
    assert |CbteSeller(f)| == 22 + |f[RazonSocial]|;
    assert |CbteAmounts(f)| == |f[ImpTotalOp]| + |f[ImpExIntOt]| + |RsRniField(f)| + |f[ImpPercepciones]| + 60;
    assert |CbteCurrency(f)| == 15;
    assert |taxes| == |f[Iva]| + 73;
    assert CbteLine(f) == head + taxes;
    EndsWith(head, taxes);
    EndsWith(f[Iva] + Zeros(15) + Zeros(11) + Spaces(30) + Zeros(15), CRLF);
  }

  /** The last |b| characters of a + b are b. */
  lemma EndsWith(a: string, b: string)
    ensures (a + b)[|a + b| - |b|..] == b
  {
  }


  /**
   * The VAT-rate record is empty unless the voucher is an "A" one; then it
   * is at least 84 characters plus CRLF, exactly that at nominal widths.
   */
  lemma AlicuotaLength(f: Fields)
    requires IsValidRegister(f) && WellFormed(f)
    ensures AlicuotaLine(f) == "" <==> !IsA(f)
    ensures IsA(f) ==> |AlicuotaLine(f)| >= AlicuotaWidth + |CRLF|
    ensures IsA(f) ==> (|AlicuotaLine(f)| == AlicuotaWidth + |CRLF| <==> NominalAlicuotaWidths(f))
  {
    assert FieldShape(TipoCompra, f[TipoCompra]);
    assert FieldShape(PuntoVenta, f[PuntoVenta]);
    assert FieldShape(NroComprobante, f[NroComprobante]);
    assert FieldShape(IdVendedor, f[IdVendedor]);
    assert FieldShape(ImpNetoGrav, f[ImpNetoGrav]);
    assert FieldShape(Iva, f[Iva]);
  }

  // ---------------------------------------------------------------------
  // Reading the records back

  /** The variable fields of a voucher record. */
  datatype CbteRecord = CbteRecord(
    date: string, kind: string, pointOfSale: string, number: string, seller: string, name: string,
    total: string, exempt: string, nonCategorized: string, perceptions: string, vatCount: string, vat: string)

  /** What a voucher record of register f carries in its variable fields. */
  function CbteOf(f: Fields): CbteRecord
    requires IsValidRegister(f)
  {
    CbteRecord(f[FechaCompra], f[TipoCompra], f[PuntoVenta], f[NroComprobante], f[IdVendedor], f[RazonSocial],
      f[ImpTotalOp], f[ImpExIntOt], RsRniField(f), f[ImpPercepciones], VatCount(f), f[Iva])
  }

  /**
   * A reader for the voucher record layout: a 325-character line plus
   * CRLF, cut into its five groups at offsets 52, 104, 224 and 239, whose
   * constant fields must hold their fixed text and whose variable fields
   * are cut at their nominal widths.
   */
  function ReadCbte(line: string): Option<CbteRecord> {
    if |line| != CbteWidth + |CRLF| then None
    else
      var id, seller, amounts, currency, taxes := line[..52], line[52..104], line[104..224], line[224..239], line[239..];
      if id[36..] != Spaces(16) || seller[..2] != "80" || amounts[60..] != Zeros(15) + Zeros(15) + Zeros(15) + Zeros(15) ||
         currency[..13] != "PES" + "0001000000" || currency[14..] != "0" ||
         taxes[15..] != Zeros(15) + Zeros(11) + Spaces(30) + Zeros(15) + CRLF then None
      else
        Some(CbteRecord(id[..8], id[8..11], id[11..16], id[16..36], seller[2..22], seller[22..],
          amounts[..15], amounts[15..30], amounts[30..45], amounts[45..60], currency[13..14], taxes[..15]))
  }

  /** Where each of five consecutive pieces sits in their concatenation. */
  lemma Pieces(a: string, b: string, c: string, d: string, e: string)
    ensures var s := a + b + c + d + e;
      var i, j, k, l := |a|, |a| + |b|, |a| + |b| + |c|, |a| + |b| + |c| + |d|;
      s[..i] == a && s[i..j] == b && s[j..k] == c && s[k..l] == d && s[l..] == e
  {
    var s := a + b + c + d + e;
    assert s == a + (b + (c + (d + e)));
  }

  lemma IdentificationCut(f: Fields)
    requires IsValidRegister(f) && WellFormed(f)
    ensures var g := CbteIdentification(f);
      |g| == 52 && g[..8] == f[FechaCompra] && g[8..11] == f[TipoCompra] && g[11..16] == f[PuntoVenta] &&
      g[16..36] == f[NroComprobante] && g[36..] == Spaces(16)
  {
    assert FieldShape(FechaCompra, f[FechaCompra]);
    assert FieldShape(TipoCompra, f[TipoCompra]);
    assert FieldShape(PuntoVenta, f[PuntoVenta]);
    assert FieldShape(NroComprobante, f[NroComprobante]);
    Pieces(f[FechaCompra], f[TipoCompra], f[PuntoVenta], f[NroComprobante], Spaces(16));
  }

  lemma SellerCut(f: Fields)
    requires IsValidRegister(f) && WellFormed(f) && |f[RazonSocial]| == LegalNameWidth
    ensures var g := CbteSeller(f);
      |g| == 52 && g[..2] == "80" && g[2..22] == f[IdVendedor] && g[22..] == f[RazonSocial]
  {
    assert FieldShape(IdVendedor, f[IdVendedor]);
    Pieces("80", f[IdVendedor], f[RazonSocial], "", "");
  }

  lemma AmountsCut(f: Fields)
    requires IsValidRegister(f) && NominalCbteWidths(f)
    ensures var g := CbteAmounts(f);
      |g| == 120 && g[..15] == f[ImpTotalOp] && g[15..30] == f[ImpExIntOt] && g[30..45] == RsRniField(f) &&
      g[45..60] == f[ImpPercepciones] && g[60..] == Zeros(15) + Zeros(15) + Zeros(15) + Zeros(15)
  {
    var z := Zeros(15) + Zeros(15) + Zeros(15) + Zeros(15);
    assert CbteAmounts(f) == f[ImpTotalOp] + f[ImpExIntOt] + RsRniField(f) + f[ImpPercepciones] + z;
    Pieces(f[ImpTotalOp], f[ImpExIntOt], RsRniField(f), f[ImpPercepciones], z);
  }

  lemma CurrencyCut(f: Fields)
    requires IsValidRegister(f)
    ensures var g := CbteCurrency(f);
      |g| == 15 && g[..13] == "PES" + "0001000000" && g[13..14] == VatCount(f) && g[14..] == "0"
  {
    Pieces("PES" + "0001000000", VatCount(f), "0", "", "");
  }

  lemma TaxesCut(f: Fields)
    requires IsValidRegister(f) && |f[Iva]| == AmountWidth
    ensures var g := CbteTaxes(f);
      |g| == 88 && g[..15] == f[Iva] && g[15..] == Zeros(15) + Zeros(11) + Spaces(30) + Zeros(15) + CRLF
  {
    HeadAndRest(f[Iva], Zeros(15), Zeros(11), Spaces(30), Zeros(15), CRLF);
  }

  /** Six pieces joined: the first piece, then the other five joined. */
  lemma HeadAndRest(a: string, b: string, c: string, d: string, e: string, g: string)
    ensures var s, rest := a + b + c + d + e + g, b + c + d + e + g;
      s == a + rest && |s| == |a| + |rest| && s[..|a|] == a && s[|a|..] == rest
  {
    var s, rest := a + b + c + d + e + g, b + c + d + e + g;
    assert s == a + rest;
  }


  /** At nominal widths the voucher record reads back as the register's fields. */
  lemma CbteRoundTrip(f: Fields)
    requires IsValidRegister(f) && WellFormed(f) && NominalCbteWidths(f)
    ensures ReadCbte(CbteLine(f)) == Some(CbteOf(f))
  {
    IdentificationCut(f);
    SellerCut(f);
    AmountsCut(f);
    CurrencyCut(f);
    TaxesCut(f);
    Pieces(CbteIdentification(f), CbteSeller(f), CbteAmounts(f), CbteCurrency(f), CbteTaxes(f));
  }

  /** The variable fields of a VAT-rate record. */
  datatype AlicuotaRecord = AlicuotaRecord(kind: string, pointOfSale: string, number: string, seller: string, base: string, vat: string)

  /**
   * A reader for the VAT-rate record layout: 84 characters plus CRLF, cut
   * into the voucher part (type, point of sale, number, document code 80)
   * and the tax part (seller, taxed base, rate code 0005, VAT, CRLF).
   */
  function ReadAlicuota(line: string): Option<AlicuotaRecord> {
    if |line| != AlicuotaWidth + |CRLF| then None
    else
      var voucher, tax := line[..30], line[30..];
      if voucher[28..] != "80" || tax[35..39] != "0005" || tax[54..] != CRLF then None
      else Some(AlicuotaRecord(voucher[..3], voucher[3..8], voucher[8..28], tax[..20], tax[20..35], tax[39..54]))
  }

  lemma AlicuotaVoucherCut(kind: string, pointOfSale: string, number: string)
    requires |kind| == 3 && |pointOfSale| == 5 && |number| == 20
    ensures var v := kind + pointOfSale + number + "80";
      |v| == 30 && v[..3] == kind && v[3..8] == pointOfSale && v[8..28] == number && v[28..] == "80"
  {
    Pieces(kind, pointOfSale, number, "80", "");
    assert kind + pointOfSale + number + "80" + "" == kind + pointOfSale + number + "80";
  }

  lemma AlicuotaTaxCut(seller: string, base: string, vat: string)
    requires |seller| == 20 && |base| == AmountWidth && |vat| == AmountWidth
    ensures var t := seller + base + "0005" + vat + CRLF;
      |t| == 56 && t[..20] == seller && t[20..35] == base && t[35..39] == "0005" && t[39..54] == vat && t[54..] == CRLF
  {
    Pieces(seller, base, "0005", vat, CRLF);
  }

  /** A VAT-rate record assembled from fields of the layout's widths reads back as those fields. */
  lemma AlicuotaRead(kind: string, pointOfSale: string, number: string, seller: string, base: string, vat: string)
    requires |kind| == 3 && |pointOfSale| == 5 && |number| == 20
    requires |seller| == 20 && |base| == AmountWidth && |vat| == AmountWidth
    ensures ReadAlicuota(kind + pointOfSale + number + "80" + seller + base + "0005" + vat + CRLF) ==
      Some(AlicuotaRecord(kind, pointOfSale, number, seller, base, vat))
  {
    var voucher := kind + pointOfSale + number + "80";
    var tax := seller + base + "0005" + vat + CRLF;
    AlicuotaVoucherCut(kind, pointOfSale, number);
    AlicuotaTaxCut(seller, base, vat);
    var line := kind + pointOfSale + number + "80" + seller + base + "0005" + vat + CRLF;
    assert line == voucher + tax;
    assert line[..30] == voucher && line[30..] == tax;
  }

  /** At nominal widths the VAT-rate record of an "A" voucher reads back as the register's fields. */
  lemma AlicuotaRoundTrip(f: Fields)
    requires IsValidRegister(f) && WellFormed(f) && NominalAlicuotaWidths(f) && IsA(f)
    ensures ReadAlicuota(AlicuotaLine(f)) ==
      Some(AlicuotaRecord(f[TipoCompra], f[PuntoVenta], f[NroComprobante], f[IdVendedor], f[ImpNetoGrav], f[Iva]))
  {
    assert FieldShape(TipoCompra, f[TipoCompra]);
    assert FieldShape(PuntoVenta, f[PuntoVenta]);
    assert FieldShape(NroComprobante, f[NroComprobante]);
    assert FieldShape(IdVendedor, f[IdVendedor]);
    AlicuotaRead(f[TipoCompra], f[PuntoVenta], f[NroComprobante], f[IdVendedor], f[ImpNetoGrav], f[Iva]);
  }

  /**
   * The VAT-rate count written in a nominal voucher record (offset 237) is
   * "1" exactly when a VAT-rate record is written for the same register.
   */
  lemma VatCountMatchesAlicuota(f: Fields)
    requires IsValidRegister(f) && WellFormed(f) && NominalCbteWidths(f)
    ensures CbteLine(f)[237] == (if AlicuotaLine(f) != "" then '1' else '0')
  {
    CbteRoundTrip(f);
    var line := CbteLine(f);
    assert line[224..239][13..14] == VatCount(f);
    assert line[237] == line[224..239][13];
  }

  // ---------------------------------------------------------------------
  // The writers

  lemma AppendFive(t: string, a: string, b: string, c: string, d: string, e: string)
    ensures t + a + b + c + d + e == t + (a + b + c + d + e)
  {
  }

  /** Writing `s` after `acc` continues the text `t + acc`. */
  lemma AppendAssoc(t: string, acc: string, s: string)
    ensures (t + acc) + s == t + (acc + s)
  {
  }

  /** The writes of `print_cbte_output` for the identification group. */
  method WriteIdentification(f: Fields, out: OutputFile)
    requires IsValidRegister(f)
    modifies out
    ensures out.text == old(out.text) + CbteIdentification(f)
  {
    out.Write(f[FechaCompra]);
    out.Write(f[TipoCompra]);
    out.Write(f[PuntoVenta]);
    out.Write(f[NroComprobante]);
    out.Write(Spaces(16));
  }

  /** The writes of `print_cbte_output` for the seller group. */
  method WriteSeller(f: Fields, out: OutputFile)
    requires IsValidRegister(f)
    modifies out
    ensures out.text == old(out.text) + CbteSeller(f)
  {
    out.Write("80");
    out.Write(f[IdVendedor]);
    out.Write(f[RazonSocial]);
  }

  /** The writes of `print_cbte_output` for the amounts group. */
  method WriteAmounts(f: Fields, out: OutputFile)
    requires IsValidRegister(f)
    modifies out
    ensures out.text == old(out.text) + CbteAmounts(f)
  {
    ghost var t0 := out.text;
    out.Write(f[ImpTotalOp]);
    ghost var acc := f[ImpTotalOp];
    out.Write(f[ImpExIntOt]);
    AppendAssoc(t0, acc, f[ImpExIntOt]);
    acc := acc + f[ImpExIntOt];
    var rsRni := if f[TipoCompra] == "001" then f[ImpRsRni] else Zeros(15);
    out.Write(rsRni);
    AppendAssoc(t0, acc, rsRni);
    acc := acc + rsRni;
    out.Write(f[ImpPercepciones]);
    AppendAssoc(t0, acc, f[ImpPercepciones]);
    acc := acc + f[ImpPercepciones];
    out.Write(Zeros(15));
    AppendAssoc(t0, acc, Zeros(15));
    acc := acc + Zeros(15);
    out.Write(Zeros(15));
    AppendAssoc(t0, acc, Zeros(15));
    acc := acc + Zeros(15);
    out.Write(Zeros(15));
    AppendAssoc(t0, acc, Zeros(15));
    acc := acc + Zeros(15);
    out.Write(Zeros(15));
    AppendAssoc(t0, acc, Zeros(15));
    acc := acc + Zeros(15);
  }

  /** The writes of `print_cbte_output` for the currency group. */
  method WriteCurrency(f: Fields, out: OutputFile)
    requires IsValidRegister(f)
    modifies out
    ensures out.text == old(out.text) + CbteCurrency(f)
  {
    out.Write("PES");
    out.Write("0001000000");
    out.Write(if IsA(f) then "1" else "0");
    out.Write("0");
  }

  /** The writes of `print_cbte_output` for the taxes group, ending the line. */
  method WriteTaxes(f: Fields, out: OutputFile)
    requires IsValidRegister(f)
    modifies out
    ensures out.text == old(out.text) + CbteTaxes(f)
  {
    ghost var t0 := out.text;
    out.Write(f[Iva]);
    ghost var acc := f[Iva];
    out.Write(Zeros(15));
    AppendAssoc(t0, acc, Zeros(15));
    acc := acc + Zeros(15);
    out.Write(Zeros(11));
    AppendAssoc(t0, acc, Zeros(11));
    acc := acc + Zeros(11);
    out.Write(Spaces(30));
    AppendAssoc(t0, acc, Spaces(30));
    acc := acc + Spaces(30);
    out.Write(Zeros(15));
    AppendAssoc(t0, acc, Zeros(15));
    acc := acc + Zeros(15);
    out.Write(CRLF);
    AppendAssoc(t0, acc, CRLF);
    acc := acc + CRLF;
  }

  /** `print_cbte_output(register, output_file)`: the voucher record, group by group. */
  method PrintCbte(reg: Register, out: OutputFile)
    requires IsValidRegister(reg.fields)
    modifies out
    ensures out.text == old(out.text) + CbteLine(reg.fields)
  {
    var f := reg.fields;
    ghost var t0 := out.text;
    WriteIdentification(f, out);
    WriteSeller(f, out);
    WriteAmounts(f, out);
    WriteCurrency(f, out);
    WriteTaxes(f, out);
    AppendFive(t0, CbteIdentification(f), CbteSeller(f), CbteAmounts(f), CbteCurrency(f), CbteTaxes(f));
  }

  /** `print_alicuotas_output(register, output_file)`: writes nothing unless the voucher is an "A" one. */
  method PrintAlicuotas(reg: Register, out: OutputFile)
    requires IsValidRegister(reg.fields)
    modifies out
    ensures out.text == old(out.text) + AlicuotaLine(reg.fields)
  {
    var f := reg.fields;
    if IsA(f) {
      ghost var t0 := out.text;
      out.Write(f[TipoCompra]);
      ghost var acc := f[TipoCompra];
      out.Write(f[PuntoVenta]);
      AppendAssoc(t0, acc, f[PuntoVenta]);
      acc := acc + f[PuntoVenta];
      out.Write(f[NroComprobante]);
      AppendAssoc(t0, acc, f[NroComprobante]);
      acc := acc + f[NroComprobante];
      out.Write("80");
      AppendAssoc(t0, acc, "80");
      acc := acc + "80";
      out.Write(f[IdVendedor]);
      AppendAssoc(t0, acc, f[IdVendedor]);
      acc := acc + f[IdVendedor];
      out.Write(f[ImpNetoGrav]);
      AppendAssoc(t0, acc, f[ImpNetoGrav]);
      acc := acc + f[ImpNetoGrav];
      out.Write("0005");
      AppendAssoc(t0, acc, "0005");
      acc := acc + "0005";
      out.Write(f[Iva]);
      AppendAssoc(t0, acc, f[Iva]);
      acc := acc + f[Iva];
      out.Write(CRLF);
      AppendAssoc(t0, acc, CRLF);
      acc := acc + CRLF;
    }
  }
}
