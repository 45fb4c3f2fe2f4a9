/** The spreadsheet-to-record extraction of extract_all_fsa.py (three registers) and
    extract_fsa_data.py (one register): one record per distinct normalised name, first row
    wins, blank names skipped. */
module Extraction {
  import opened Wrappers
  import opened Strings
  import opened Chars
  import opened Normalizer
  import opened Cells
  import opened Dedup

  /** A worksheet row as handed over by the spreadsheet reader: one optional value per
      column, already converted with `str()`. Rows may be shorter than the widest column. */
  type Row = seq<Option<string>>

  /** The three registers of the regulator's list. */
  datatype Category =
    | Dealer        // kinyushohin.xlsx, 金融商品取引業者
    | Intermediary  // chuukai.xlsx,     金融商品仲介業者
    | Institution   // touroku.xlsx,     登録金融機関

  /** Which script reads the sheet: a register of extract_all_fsa.py, or extract_fsa_data.py
      (the dealer register only, with its own `cell_str`). */
  datatype Layout = AllFsa(cat: Category) | FsaData

  /** The register-specific columns of a record. */
  datatype Details =
    | DealerDetails(type1: string, type2: string, advisory: string, mgmt: string)
    | IntermediaryDetails(corpType: string, belongs: string)
    | InstitutionDetails

  /** One output record. `category` is absent in extract_fsa_data.py's output. */
  datatype Company = Company(
    name: string, nameN: string, address: string, addrN: string,
    regNo: string, regDate: string, phone: string,
    details: Details, category: Option<string>)

  /** First data row, 1-based, in every sheet. */
  const DataStartRow: nat := 8

  // Column indices, 0-based, shared by all sheets.
  const ColRegNo: nat := 1
  const ColRegDate: nat := 2
  const ColName: nat := 3
  const ColAddress: nat := 6
  const ColPhone: nat := 7
  const ColType1: nat := 8
  const ColType2: nat := 9
  const ColAdvisory: nat := 10
  const ColMgmt: nat := 11
  const ColCorpType: nat := 8
  const ColBelongs: nat := 9

  /** The `category` value written for each register. */
  function Label(c: Category): string {
    match c
    case Dealer => "金融商品取引業者"
    case Intermediary => "金融商品仲介業者"
    case Institution => "登録金融機関"
  }

  /** The rows `iter_rows(min_row=DATA_START_ROW)` yields. */
  function DataRows(sheet: seq<Row>): (rows: seq<Row>)
    ensures |sheet| < DataStartRow ==> rows == []
    ensures |sheet| >= DataStartRow ==> |rows| == |sheet| - (DataStartRow - 1)
    ensures forall k :: 0 <= k < |rows| ==> rows[k] == sheet[k + DataStartRow - 1]
  {
    if |sheet| < DataStartRow then [] else sheet[DataStartRow - 1..]
  }

  /** `row[col] if len(row) > col else None`. */
  function CellAt(row: Row, col: nat): Option<string> {
    if col < |row| then row[col] else None
  }

  /** The layout's `cell_str` on one column. */
  function Read(layout: Layout, row: Row, col: nat): (r: string)
    ensures '\n' !in r && Trimmed(Python, r)
    ensures col >= |row| || row[col].None? ==> r == []
  {
    if layout.FsaData? then CellStrFsa(CellAt(row, col)) else CellStrAll(CellAt(row, col))
  }

  function NameOf(layout: Layout, row: Row): string {
    Read(layout, row, ColName)
  }

  /** The de-duplication key, `normalize(name)`. */
  function KeyOf(layout: Layout, row: Row): (k: string)
    ensures |k| <= |NameOf(layout, row)|
    ensures NameOf(layout, row) == [] ==> k == []
  {
    Normalize(Python, NameOf(layout, row))
  }

  /** The record built for a kept row. For the registers, `excel_date` on the registration
      date is `cell_str`, since cells are text here. */
  function Record(layout: Layout, row: Row): (c: Company)
    ensures c.name == NameOf(layout, row) && c.nameN == KeyOf(layout, row)
    ensures c.address == Read(layout, row, ColAddress) && c.addrN == Normalize(Python, c.address)
    ensures c.category == (if layout.FsaData? then None else Some(Label(layout.cat)))
  {
    var details :=
      if layout.FsaData? || layout.cat == Dealer then
        DealerDetails(Read(layout, row, ColType1), Read(layout, row, ColType2),
                      Read(layout, row, ColAdvisory), Read(layout, row, ColMgmt))
      else if layout.cat == Intermediary then
        IntermediaryDetails(Read(layout, row, ColCorpType), Read(layout, row, ColBelongs))
      else InstitutionDetails;
    var address := Read(layout, row, ColAddress);
    Company(
      NameOf(layout, row), KeyOf(layout, row), address, Normalize(Python, address),
      Read(layout, row, ColRegNo), Read(layout, row, ColRegDate), Read(layout, row, ColPhone),
      details, if layout.FsaData? then None else Some(Label(layout.cat)))
  }

  /** The key of every row, kept or not. */
  function Keys(layout: Layout, rows: seq<Row>): (ks: seq<string>)
    ensures |ks| == |rows|
    ensures forall k :: 0 <= k < |rows| ==> ks[k] == KeyOf(layout, rows[k])
  {
    seq(|rows|, k requires 0 <= k < |rows| => KeyOf(layout, rows[k]))
  }

  /** The record of every row, kept or not. */
  function Records(layout: Layout, rows: seq<Row>): (cs: seq<Company>)
    ensures |cs| == |rows|
    ensures forall k :: 0 <= k < |rows| ==> cs[k] == Record(layout, rows[k])
  {
    seq(|rows|, k requires 0 <= k < |rows| => Record(layout, rows[k]))
  }

  /** Reference definition of the output: the records of the rows that are the first of
      their non-empty key, in row order. */
  function Kept(layout: Layout, rows: seq<Row>): seq<Company> {
    Pick(Records(layout, rows), FirstIndices(Keys(layout, rows), |rows|))
  }

  /** A blank name has an empty key, so the script's two `continue` tests agree with the
      single "empty key" test of the reference definition. */
  lemma BlankNameEmptyKey(layout: Layout, row: Row)
    ensures NameOf(layout, row) == [] ==> KeyOf(layout, row) == []
  {
  }

  // ---------------------------------------------------------------------------
  // The extraction loop
  // ---------------------------------------------------------------------------

  /** The name of every row. */
  function Names(layout: Layout, rows: seq<Row>): (ns: seq<string>)
    ensures |ns| == |rows|
    ensures forall k :: 0 <= k < |rows| ==> ns[k] == NameOf(layout, rows[k])
  {
    seq(|rows|, k requires 0 <= k < |rows| => NameOf(layout, rows[k]))
  }

  /** `extract_kinyushohin` / `extract_chuukai` / `extract_touroku` / `extract_from_xlsx`
      on an opened sheet: the loop over the data rows with the row's name, key and record. */
  method Extract(layout: Layout, sheet: seq<Row>) returns (companies: seq<Company>)
    ensures companies == Kept(layout, DataRows(sheet))
  {
    var rows := DataRows(sheet);
    var names := Names(layout, rows);
    var keys := Keys(layout, rows);
    forall k | 0 <= k < |rows|
      ensures names[k] == [] ==> keys[k] == []
    {
      BlankNameEmptyKey(layout, rows[k]);
    }
    companies := KeepFirst(names, keys, Records(layout, rows));
  }

  // ---------------------------------------------------------------------------
  // What the output promises
  // ---------------------------------------------------------------------------

  /** Every record has a non-blank name whose normal form is its non-empty key. */
  lemma KeptKeysNonEmpty(layout: Layout, rows: seq<Row>)
    ensures var cs := Kept(layout, rows);
      forall m :: 0 <= m < |cs| ==>
        cs[m].name != [] && cs[m].nameN != [] && cs[m].nameN == Normalize(Python, cs[m].name)
  {
    var keys := Keys(layout, rows);
    var idx := FirstIndices(keys, |rows|);
    var cs := Kept(layout, rows);
    FirstIndicesAreFirst(keys, |rows|);
    forall m | 0 <= m < |cs|
      ensures cs[m].name != [] && cs[m].nameN != [] && cs[m].nameN == Normalize(Python, cs[m].name)
    {
      assert cs[m] == Record(layout, rows[idx[m]]);
      assert IsFirst(keys, idx[m]);
      BlankNameEmptyKey(layout, rows[idx[m]]);
    }
  }

  /** No two records share a key. */
  lemma KeptKeysDistinct(layout: Layout, rows: seq<Row>)
    ensures var cs := Kept(layout, rows);
      forall a, b :: 0 <= a < b < |cs| ==> cs[a].nameN != cs[b].nameN
  {
    var keys := Keys(layout, rows);
    var idx := FirstIndices(keys, |rows|);
    var cs := Kept(layout, rows);
    FirstIndicesDistinct(keys, |rows|);
    forall a, b | 0 <= a < b < |cs|
      ensures cs[a].nameN != cs[b].nameN
    {
      KeptKeyAt(layout, rows, a);
      KeptKeyAt(layout, rows, b);
    }
  }

  /** The key of the `m`-th record is the key of the row it came from. */
  lemma KeptKeyAt(layout: Layout, rows: seq<Row>, m: nat)
    requires m < |Kept(layout, rows)|
    ensures var idx := FirstIndices(Keys(layout, rows), |rows|);
      m < |idx| && Kept(layout, rows)[m].nameN == Keys(layout, rows)[idx[m]]
  {
  }

  /** Every data row with a non-empty key is represented by a record with that key. */
  lemma KeptComplete(layout: Layout, rows: seq<Row>, k: nat)
    requires k < |rows| && KeyOf(layout, rows[k]) != []
    ensures exists c :: c in Kept(layout, rows) && c.nameN == KeyOf(layout, rows[k])
  {
    var keys := Keys(layout, rows);
    FirstIndicesComplete(keys, |rows|, k);
    var idx := FirstIndices(keys, |rows|);
    var m :| 0 <= m < |idx| && keys[idx[m]] == keys[k];
    assert Kept(layout, rows)[m] in Kept(layout, rows);
  }

  /** Records appear in row order, each one the record of the earliest row with its key. */
  lemma KeptInOrder(layout: Layout, rows: seq<Row>)
    ensures var cs := Kept(layout, rows); var idx := FirstIndices(Keys(layout, rows), |rows|);
      && |cs| == |idx| && Increasing(idx)
      && (forall m :: 0 <= m < |idx| ==> cs[m] == Record(layout, rows[idx[m]]))
      && (forall m, j :: 0 <= m < |idx| && 0 <= j < idx[m] ==> KeyOf(layout, rows[j]) != cs[m].nameN)
  {
    var keys := Keys(layout, rows);
    FirstIndicesIncreasing(keys, |rows|);
    FirstIndicesAreFirst(keys, |rows|);
  }

  /** A sheet yields no record exactly when no data row has a non-empty key. */
  lemma KeptEmpty(layout: Layout, rows: seq<Row>)
    ensures Kept(layout, rows) == [] <==>
      forall k :: 0 <= k < |rows| ==> KeyOf(layout, rows[k]) == []
  {
    FirstIndicesEmpty(Keys(layout, rows));
  }

  // ---------------------------------------------------------------------------
  // The two `main` functions
  // ---------------------------------------------------------------------------

  /** The workbooks found next to the script; `None` is a missing file. */
  datatype Workbooks = Workbooks(
    kinyushohin: Option<seq<Row>>, chuukai: Option<seq<Row>>, touroku: Option<seq<Row>>)

  /** The JSON document of extract_all_fsa.py, without the generation date. */
  datatype AllOutput = AllOutput(
    count: nat, kinyushohinCount: nat, chuukaiCount: nat, tourokuCount: nat,
    kinyushohin: seq<Company>, chuukai: seq<Company>, touroku: seq<Company>)

  /** One register: a missing workbook is skipped with an empty list. */
  method ExtractOrSkip(cat: Category, book: Option<seq<Row>>) returns (cs: seq<Company>)
    ensures book.None? ==> cs == []
    ensures book.Some? ==> cs == Kept(AllFsa(cat), DataRows(book.value))
  {
    if book.None? {
      cs := [];
    } else {
      cs := Extract(AllFsa(cat), book.value);
    }
  }

  /** extract_all_fsa.py's `main`: each register de-duplicated on its own, then counted. */
  method MainAll(w: Workbooks) returns (out: AllOutput)
    ensures out.kinyushohin == (if w.kinyushohin.None? then [] else
      Kept(AllFsa(Dealer), DataRows(w.kinyushohin.value)))
    ensures out.chuukai == (if w.chuukai.None? then [] else
      Kept(AllFsa(Intermediary), DataRows(w.chuukai.value)))
    ensures out.touroku == (if w.touroku.None? then [] else
      Kept(AllFsa(Institution), DataRows(w.touroku.value)))
    ensures out.count == |out.kinyushohin + out.chuukai + out.touroku|
    ensures out.count == out.kinyushohinCount + out.chuukaiCount + out.tourokuCount
    ensures out.kinyushohinCount == |out.kinyushohin| && out.chuukaiCount == |out.chuukai|
            && out.tourokuCount == |out.touroku|
  {
    var k := ExtractOrSkip(Dealer, w.kinyushohin);
    var c := ExtractOrSkip(Intermediary, w.chuukai);
    var t := ExtractOrSkip(Institution, w.touroku);
    var all := k + c + t;
    out := AllOutput(|all|, |k|, |c|, |t|, k, c, t);
  }

  /** Why extract_fsa_data.py's `main` stops with exit status 1. */
  datatype FsaError = MissingWorkbook | NoCompanies

  /** The JSON document of extract_fsa_data.py, without the generation date and the fixed
      source fields. */
  datatype FsaOutput = FsaOutput(count: nat, companies: seq<Company>)

  /** extract_fsa_data.py's `main`. */
  method MainFsa(book: Option<seq<Row>>) returns (r: Result<FsaOutput, FsaError>)
    ensures book.None? <==> r == Failure(MissingWorkbook)
    ensures r == Failure(NoCompanies) <==>
      book.Some? && forall k :: 0 <= k < |DataRows(book.value)| ==>
        KeyOf(FsaData, DataRows(book.value)[k]) == []
    ensures r.Success? ==>
      && r.value.count == |r.value.companies| > 0
      && r.value.companies == Kept(FsaData, DataRows(book.value))
  {
    if book.None? {
      return Failure(MissingWorkbook);
    }
    var companies := Extract(FsaData, book.value);
    KeptEmpty(FsaData, DataRows(book.value));
    if companies == [] {
      return Failure(NoCompanies);
    }
    r := Success(FsaOutput(|companies|, companies));
  }

  /** De-duplication is per register: the same company listed in two registers yields two
      records. */
  lemma SameNameTwoRegisters(row: Row)
    requires KeyOf(AllFsa(Dealer), row) != []
    ensures Kept(AllFsa(Dealer), [row]) == [Record(AllFsa(Dealer), row)]
    ensures Kept(AllFsa(Intermediary), [row]) == [Record(AllFsa(Intermediary), row)]
  {
    assert KeyOf(AllFsa(Intermediary), row) == KeyOf(AllFsa(Dealer), row);
    assert FirstIndices(Keys(AllFsa(Dealer), [row]), 1) == [0];
    assert FirstIndices(Keys(AllFsa(Intermediary), [row]), 1) == [0];
  }
}
