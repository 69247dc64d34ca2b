# AFIP purchases-ledger converter: a verified model

`compras-parser.py` reads purchase invoices that were extracted from PDF
tables as CSV cells. It writes the two fixed-width text files of AFIP's
purchases ledger (Régimen de Información de Compras y Ventas, RG 3685). One
file holds the voucher records ("CBTE", 325 characters plus CRLF). The other
holds the VAT-rate records ("ALICUOTAS", 84 characters plus CRLF).

This project models the decision core of that script in Dafny and proves
properties of the model:

- **Normalisers and shape predicates** are Option- or Result-returning
  functions. They cover:
  - dates: strptime `%d/%m/%Y` becomes a Gregorian validity check;
  - the voucher-type lookup;
  - point of sale and voucher number;
  - the CUIT;
  - the legal name;
  - fixed-width amounts.

  Each `re.match`/`re.search` becomes an explicit anchored or unanchored
  search (module `Normalizers`; string primitives in module `Text`).
- **The classifier `parse`** is in module `Registers`:
  - `FirstRule` picks the branch of the if/elif chain.
  - `Apply` is that branch's body.
  - `Classify` is one call.
  - `Register.Parse` is a class method that updates the register map in
    place, proved equal to `Classify`.
- **Validity and correction** (`IsValidRegister`, `IsA`, `Corrected`,
  `Register.CorrectCompTipo`). `int()` is modelled by `Text.ParseInt`. An
  amount that `int()` rejects is the exception it raises, not a
  precondition.
- **The encoders** write into an `OutputFile` class whose text only grows
  (module `Encoder`). `PrintCbte` and `PrintAlicuotas` write field by field
  and are proved to append exactly `CbteLine` and `AlicuotaLine`. Readers of
  the two layouts give round trips.
- **The row loop of `transcript`**, over an in-memory header and rows
  (module `Pipeline`). `Transcript` opens two fresh output files. For each
  row it classifies every cell in header order from an empty register, then
  validates, corrects and encodes. It stops at the first exception.
  `TranscriptRun` gives the same run as a function.
- **The noise-line filter of `clean_file`** (`Pipeline.CleanLines` and
  `Pipeline.Cleaned`).

Every exception that escapes in the script is the datatype
`Normalizers.Fatal`:

- an unknown voucher type;
- a date before 1900, which Python 2 `strftime` refuses;
- a voucher number with no `-dddddddd`;
- an amount that `int()` rejects.

Such an exception ends the run. The records written before it stay in the
files.

## Model

| member | source | states |
|---|---|---|
| Text.ContainsIff | compras-parser.py:42 | Python's `sub in s` holds exactly when `sub` occurs at some position of `s` |
| Text.SplitOnShape | compras-parser.py:131 | `str.split(sep)` pieces joined with `sep` give back the text; there is one more piece than separators, and no piece holds the separator |
| Text.CollapseMeaning | compras-parser.py:125 | `' '.join(s.split())` has single spaces only between words, none at the ends, and exactly the words of `s` in order, so the same non-space characters in the same order |
| Text.WordsOfJoin | compras-parser.py:125 | splitting non-empty blank-free words joined by single spaces gives back exactly those words |
| Text.ReplaceAllBounds | compras-parser.py:123 | deleting every "RI" never lengthens the text, leaves it unchanged when "RI" is absent and shortens it when present |
| Text.ReplaceAllFirst | compras-parser.py:123 | `replace` keeps the text before the first occurrence of the pattern, puts the replacement in its place and replaces the rest of the text the same way |
| Text.ReplaceAllAbsent | compras-parser.py:123 | a text without the pattern is left unchanged by `replace`, whatever the replacement |
| Text.ReplaceChar | compras-parser.py:124 | the result has the same length, with every occurrence of the old character replaced and every other character kept |
| Text.RemoveChar | compras-parser.py:113 | the result holds no removed character and is shorter by exactly the number of its occurrences |
| Text.RemoveCharMeaning | compras-parser.py:113 | `replace(c, '')` deletes each c, keeps every other character, and works piecewise over a concatenation, so the kept characters stay in order |
| Text.ParseIntOfDigits | compras-parser.py:280 | `int()` of a non-empty string of ASCII digits is its decimal value |
| Text.ParseIntSigned | compras-parser.py:280 | `int()` of a sign, any blanks and a non-empty digit string is the signed value of the digits, as Python 2 reads `int('- 1')` as -1 |
| Text.DigitsValueZero | compras-parser.py:280 | a digit string reads as zero exactly when every digit is '0' |
| Normalizers.DateParts | compras-parser.py:28-33 | a text accepted as D/M/YYYY always denotes a valid Gregorian date (month 1-12, day within the month, leap years) |
| Normalizers.SlashDateRoundTrip | compras-parser.py:28-33 | every valid date written as DD/MM/YYYY is accepted and read back as the same date |
| Normalizers.ParseDateMeaning | compras-parser.py:36-37 | converting an accepted date fails exactly when its year is before 1900; otherwise it yields 8 digits whose first 4, middle 2 and last 2 read as year, month and day |
| Normalizers.ParseDateExample | compras-parser.py:36-37 | "01/03/2021" is a date and converts to "20210301" |
| Normalizers.SearchPatternIff | compras-parser.py:51-58 | the search for `CODE[ ]*L` succeeds exactly when the code, zero or more spaces and the letter occur at some position |
| Normalizers.ParseVoucherTypeIsFirstMatch | compras-parser.py:50-73 | the lookup fails exactly when no pattern of the table matches; otherwise it returns the code of the first matching pattern in the order FAC A, FAC B, FAC C, NCR A, NCR B, NDE A, NDE B |
| Normalizers.ParseVoucherTypeCodes | compras-parser.py:58-71 | a successful lookup returns one of the seven 3-character AFIP codes |
| Normalizers.TokenMatchesOnlyItsClass | compras-parser.py:51-57 | a voucher token "CODE", n spaces, "L" matches a table pattern exactly when code and letter agree |
| Normalizers.ParseVoucherTypeOfToken | compras-parser.py:50-71 | each table entry's token, with any number of spaces, is mapped to that entry's code |
| Normalizers.ParsePointOfSale | compras-parser.py:87-90 | the point of sale is 5 digits starting with '0'; its value is that of the first 4 digits, with 0000 becoming 0001 |
| Normalizers.PointOfSaleExample | compras-parser.py:90 | "0000-00000001" gives point of sale "00001" |
| Normalizers.FindVoucherDigits | compras-parser.py:94-95 | the search returns the first position of a '-' followed by 8 digits, and nothing exactly when there is none |
| Normalizers.ParseVoucherNumber | compras-parser.py:93-96 | the number is missing exactly when no `-dddddddd` occurs; otherwise it is 20 digits: 12 zeros and the 8 digits after the first such '-' |
| Normalizers.VoucherNumberOfId | compras-parser.py:93-96 | for an identifier PPPP-NNNNNNNN of digits the number is 12 zeros followed by NNNNNNNN |
| Normalizers.FindCuit | compras-parser.py:111-112 | the search returns the first position of a dd-dddddddd-d CUIT, and nothing exactly when there is none |
| Normalizers.SellerIdOfCuit | compras-parser.py:99-113 | a cell that starts with a CUIT gets a 20-digit seller id: 9 zeros then the CUIT's 11 digits without dashes |
| Normalizers.DashedDigits | compras-parser.py:113 | removing '-' from digit groups joined by dashes concatenates the groups |
| Normalizers.LegalNameMeaning | compras-parser.py:120-127 | the name has "RI" deleted when the header contains "IVA", 'Ñ' made 'N' and whitespace collapsed to single spaces between the same words; it is then right-padded with spaces to max(30, its length) and never truncated |
| Normalizers.LegalNameKeepsRIWithoutIVA | compras-parser.py:121-124 | without "IVA" in the header the name keeps the cell's words, with only 'Ñ' changed |
| Normalizers.SplitNumberMeaning | compras-parser.py:130-132 | splitting succeeds exactly when the text holds one '.', and then gives the part before it with every '-' dropped and the part after it |
| Normalizers.AmountShape | compras-parser.py:143-148 | an amount is zero-padded on the left to max(15, digits) characters and ends with the integer digits and the (one-digit-extended) fraction; it is never truncated |
| Normalizers.AmountInHundredths | compras-parser.py:143-148 | for digit parts a.b with one or two decimals the amount is all digits and reads as the value of a.b in hundredths |
| Normalizers.TokensMeaning | compras-parser.py:151-157 | the first token is the text up to the first space; the second token is the text between the first and second spaces, or the whole text when it has no space |
| Registers.FirstRule | compras-parser.py:229-256 | the branch taken is one whose guard holds |
| Registers.FirstRuleIsFirst | compras-parser.py:229-256 | the branch taken is the branch whose guard holds and whose every predecessor's guard fails |
| Registers.NoBranchIsSkipped | compras-parser.py:229-256 | a branch whose guard holds is never passed over for a later one |
| Registers.WrittenKeysCount | compras-parser.py:230-256 | each branch writes at most three keys, and only the fall-through writes none |
| Registers.ApplyWritesItsKeys | compras-parser.py:230-256 | a branch's body adds or overwrites exactly its keys and keeps every other key's value |
| Registers.ClassifyWritesOnlyItsRule | compras-parser.py:229-256 | one classification step changes only the keys of the branch taken, so a later matching cell overwrites an earlier one; a cell matching no branch leaves the register unchanged |
| Registers.ClassifyFailures | compras-parser.py:229-256 | a step fails exactly for a pre-1900 date, an unknown voucher type under a "Comp" header, or a voucher identifier without `-dddddddd`, each with its own exception |
| Registers.UnknownVoucherTypeAborts | compras-parser.py:232-233 | an unmatched voucher type cell raises out of `parse` |
| Registers.DateRuleIgnoresHeader | compras-parser.py:230-231 | a date cell is a date under any header |
| Registers.CuitRuleIgnoresHeader | compras-parser.py:249-250 | a CUIT cell with no dot and no voucher code is the seller id under any header |
| Registers.ClassifyKeepsShapes | compras-parser.py:229-256 | each normaliser writes a value of its key's shape: 8-digit date, AFIP code, 5-digit point of sale, 20-digit number and seller id, name of at least 30 and amounts of at least 15 characters |
| Registers.ValidIffEveryKey | compras-parser.py:259-271 | a register is complete exactly when all twelve keys are present |
| Registers.CorrectedCases | compras-parser.py:279-281 | a correction that succeeds keeps the register or relabels an "A" voucher as 011 |
| Registers.CorrectionChangesOnlyType | compras-parser.py:279-281 | the correction keeps every key other than the voucher type, and changes the type only from 001/002/003 to 011 |
| Registers.CorrectionCondition | compras-parser.py:274-281 | for digit-only amounts the type changes exactly when the voucher is "A", the taxed base is above zero and the VAT is zero |
| Registers.CorrectionFailures | compras-parser.py:280 | the correction raises exactly for an "A" voucher whose taxed base is not an integer, or whose base is positive and whose VAT is not an integer |
| Registers.CorrectionIdempotent | compras-parser.py:279-281 | correcting twice is the same as correcting once |
| Registers.CorrectedIsConsistent | compras-parser.py:279-281 | after correction no "A" voucher has a positive taxed base and zero VAT |
| Registers.CorrectionOnAmounts | compras-parser.py:274-281 | for 15-digit amounts of values neto and iva the type becomes 011 exactly when the voucher is "A", neto > 0 and iva = 0 |
| Registers.Register.Parse | compras-parser.py:229-256 | updating the register in place yields the register of one classification step, or the exception it raises |
| Registers.Register.CorrectCompTipo | compras-parser.py:279-281 | correcting in place yields the corrected register, or raises and leaves the register unchanged |
| Encoder.OutputFile.Write | compras-parser.py:289 | a write appends its text to the file |
| Encoder.CbteLength | compras-parser.py:288-314 | a voucher record is at least 325 characters plus CRLF, exactly that when names and amounts have their nominal widths, and ends with CRLF |
| Encoder.AlicuotaLength | compras-parser.py:317-327 | a VAT-rate record is written exactly for type 001/002/003; it is at least 84 characters plus CRLF, and exactly that at nominal widths |
| Encoder.CbteRoundTrip | compras-parser.py:288-314 | at nominal widths the voucher record reads back as its date, type, point of sale, number, seller, name, amounts, VAT-rate count and VAT, with the constant fields in place |
| Encoder.AlicuotaRoundTrip | compras-parser.py:317-327 | at nominal widths the VAT-rate record reads back as type, point of sale, number, seller, taxed base and VAT, with document code 80 and rate 0005 |
| Encoder.VatCountMatchesAlicuota | compras-parser.py:307 | the VAT-rate count character of the voucher record is '1' exactly when a VAT-rate record is written |
| Encoder.WriteIdentification | compras-parser.py:289-293 | appends date, type, point of sale, number and 16 spaces |
| Encoder.WriteSeller | compras-parser.py:294-296 | appends document code 80, seller id and legal name |
| Encoder.WriteAmounts | compras-parser.py:297-304 | appends total, exempt, the non-categorised amount (only for type 001, else 15 zeros), perceptions and four 15-zero fields |
| Encoder.WriteCurrency | compras-parser.py:305-308 | appends PES, exchange rate 0001000000, the VAT-rate count and operation code 0 |
| Encoder.WriteTaxes | compras-parser.py:309-314 | appends the VAT amount, the empty other-taxes, broker and commission fields, and CRLF |
| Encoder.PrintCbte | compras-parser.py:288-314 | appends exactly the voucher record of the register |
| Encoder.PrintAlicuotas | compras-parser.py:317-327 | appends exactly the VAT-rate record, which is empty unless the voucher is "A" |
| Pipeline.AbortIsFinal | compras-parser.py:356-363 | once a row has raised, later rows change nothing |
| Pipeline.RunAppend | compras-parser.py:356-363 | no state crosses rows: the run over two parts is the first part's output followed by the second's |
| Pipeline.TranscriptAppend | compras-parser.py:356-363 | transcribing rows1 + rows2 gives the run of rows1, followed by the run of rows2 unless rows1 raised |
| Pipeline.IncompleteRowIsSkipped | compras-parser.py:360 | a row whose register is incomplete writes nothing and does not stop later rows |
| Pipeline.ClassifyCellsKeepsShapes | compras-parser.py:357-359 | classifying a row from a well-shaped register keeps every value in its key's shape |
| Pipeline.RowRecordsComeFromCorrectedRegister | compras-parser.py:360-363 | a row that writes something has a complete register whose correction runs before both encoders, and the records are those of the corrected register |
| Pipeline.RowRecordsShape | compras-parser.py:360-363 | a row writes either nothing or a voucher record of at least 325 characters plus CRLF, with a VAT-rate record exactly for "A" vouchers |
| Pipeline.ClassifyInto | compras-parser.py:357-359 | a fresh register, every cell classified in header order, yields the row's register or the first exception |
| Pipeline.TranscribeRow | compras-parser.py:357-363 | one pass of the row loop extends both files and the outcome as the row's run step says |
| Pipeline.Transcript | compras-parser.py:355-363 | the row loop leaves in the two fresh files, and as its outcome, exactly the run of the rows |
| Pipeline.CleanLines | compras-parser.py:338-343 | the loop with its line counter keeps exactly the lines of the filter |
| Pipeline.CleanedDropsNoise | compras-parser.py:341 | the filter never lengthens the file, keeps a noise-free file unchanged, keeps no "Transporte:" line and no "Raz. social" line after the first |
| Pipeline.CleanedSelects | compras-parser.py:338-343 | the kept lines are the lines at increasing positions, and a position is kept exactly when its line passes the test: every good line stays and every noise line goes |
| Pipeline.CleanedIdempotent | compras-parser.py:341 | filtering twice is the same as filtering once |

## Left out

- Loading the CSV with pandas (`load_dataframe`). Cells are strings: NaN and float cells, and the `str(float)` in `split_number`, are not modelled. A row is a sequence of cells, one per header column, in header order.
- File and directory I/O: `mkdir`, opening and closing the output files, reading and rewriting the file in `clean_file`, `os.listdir` and its sorting in `main`, and the command-line arguments of `main`. The output files are `OutputFile` objects whose text grows by appends. `clean_file` is modelled on the list of lines it read.
- Regex and `datetime` internals. They are restated as explicit predicates: anchored matches for `re.match`, first occurrences for `re.search`, and strptime's accepted forms of `%d`, `%m` and `%Y` with Gregorian validity.
- Byte-level behaviour of the 'Ñ' replacement in a Python 2 `# coding=utf-8` file. Strings are sequences of characters and 'Ñ' is one character.
- Normalizers.ParseLegalName: pads to 30 characters, while Python 2's `len` at compras-parser.py:126 counts UTF-8 bytes. A name that still holds a non-ASCII letter (É, Á, Ü, or a lower-case ñ, which line 124 does not replace) gets one space fewer per extra byte in the source than in the model.
- Records already written when a later row raises stay in the files. The model keeps them, but not the in-place partial update of the register of the row that raised (`PuntoVenta` is set before the voucher-number search fails), because that register is discarded.
- Registers.FirstRule: its own contract only says the chosen guard holds. The "first" order is stated by `Registers.FirstRuleIsFirst`.
- Encoder.CbteLength, Encoder.CbteRoundTrip: the exact 325-character layout is proved only when the legal name and the amounts have their nominal widths. The model follows the code, which writes longer values whole and so widens the record.
- Pipeline.Transcript: it requires each row to have one cell per header column, since pandas supplies one (possibly NaN) cell per column.

Where the behaviour described for the script and its code differ, the model follows the code:

- A later cell that matches a branch overwrites the value an earlier cell wrote for the same key (plain dictionary assignment). The first classification does not win.
- The taxed-base and non-categorised amounts take the second space-separated token of the cell (`split(" ")[1]`), not the last one.
- The seller id is 20 characters wide (9 zeros and 11 digits).
- A legal name longer than 30 characters is kept whole rather than rejected.
