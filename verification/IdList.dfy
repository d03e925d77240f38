/** The text form of file-id lists: `normalizeFileList` and `int64ListText`. */
module IdList {
  import opened Wrappers
  import opened Text
  import opened Decimal
  import opened FirstOccurrences

  predicate IsIdSep(c: char) {
    c == ',' || c == '\n' || c == '\r' || c == '\t' || c == ' '
  }

  /** The id a token stands for, or None where the loop skips the token. */
  function TokenId(part: string): Option<int> {
    match ParseInt(TrimSpace(part))
    case Some(id) => if id > 0 then Some(id) else None
    case None => None
  }

  function TokenIds(parts: seq<string>): (items: seq<Option<int>>)
    ensures |items| == |parts|
  {
    seq(|parts|, i requires 0 <= i < |parts| => TokenId(parts[i]))
  }

  function Positives(ids: seq<int>): seq<int> {
    if ids == [] then []
    else
      var rest := Positives(ids[..|ids| - 1]);
      if ids[|ids| - 1] > 0 then rest + [ids[|ids| - 1]] else rest
  }

  ghost predicate Int64s(ids: seq<int>) {
    forall i :: 0 <= i < |ids| ==> MIN_INT64 <= ids[i] <= MAX_INT64
  }

  /** The printed positive values, in order. */
  function Printed(values: seq<int>): seq<string> {
    if values == [] then []
    else
      var rest := Printed(values[..|values| - 1]);
      var last := values[|values| - 1];
      if last > 0 then rest + [FormatInt(last)] else rest
  }

  function ListText(values: seq<int>): string {
    Join(Printed(values), ',')
  }

  /** The ids that the scan of `normalizeFileList` collects from the tokens. */
  function Collected(parts: seq<string>, limit: int): seq<int> {
    var items := TokenIds(parts);
    Cap(Scanned(items, |items|), limit)
  }

  function FileList(raw: string, limit: int): seq<int> {
    Collected(FieldsFunc(raw, IsIdSep), limit)
  }

  /** What `normalizeFileList` promises: the first `limit` distinct positive ids, in order. */
  lemma FileListMeans(raw: string, limit: int)
    ensures FileList(raw, limit) == Cap(Distinct(Values(TokenIds(FieldsFunc(raw, IsIdSep)))), limit)
  {
    ScanIsDistinct(TokenIds(FieldsFunc(raw, IsIdSep)));
  }

  /** `int64ListText` */
  method Int64ListText(values: seq<int>) returns (text: string)
    ensures text == ListText(values)
  {
    var parts: seq<string> := [];
    for i := 0 to |values|
      invariant parts == Printed(values[..i])
    {
      assert values[..i + 1][..i] == values[..i];
      if values[i] > 0 {
        parts := parts + [FormatInt(values[i])];
      }
    }
    assert values[..|values|] == values;
    text := Join(parts, ',');
  }

  /** `normalizeFileList`: scans the tokens once, with a seen-set and an early break. */
  method NormalizeFileList(raw: string, limit: int) returns (out: seq<int>)
    ensures out == FileList(raw, limit)
  {
    var parts := FieldsFunc(raw, IsIdSep);
    ghost var items := TokenIds(parts);
    var seen: set<int> := {};
    out := [];
    var i := 0;
    while i < |parts|
      invariant 0 <= i <= |parts|
      invariant out == Scanned(items, i)
      invariant seen == Elements(out)
      invariant limit > 0 ==> |out| < limit
    {
      var id := TokenId(parts[i]);
      ScanRound(items, i, out, seen, id);
      i := i + 1;
      if id.None? || id.value in seen {
        continue;
      }
      seen := seen + {id.value};
      out := out + [id.value];
      if limit > 0 && |out| >= limit {
        break;
      }
    }
    ScanStops(items, i, limit);
  }

  // ------------------------------------------------------------------
  // The codec
  // ------------------------------------------------------------------

  lemma PrintedToken(id: int)
    requires 0 < id <= MAX_INT64
    ensures TokenId(FormatInt(id)) == Some(id)
    ensures FormatInt(id) != "" && AllDigits(FormatInt(id))
  {
    var text := FormatInt(id);
    assert IsDigit(text[0]) && IsDigit(text[|text| - 1]);
    TrimFixed(text, IsSpace);
    ParseFormat(id);
  }

  lemma TokenIdsSnoc(parts: seq<string>, part: string)
    ensures TokenIds(parts + [part]) == TokenIds(parts) + [TokenId(part)]
  {
  }

  /** The printed values read back as the positive ones. */
  lemma {:induction false} PrintedTokens(ids: seq<int>)
    requires Int64s(ids)
    ensures Values(TokenIds(Printed(ids))) == Positives(ids)
  {
    if ids != [] {
      var front, last := ids[..|ids| - 1], ids[|ids| - 1];
      PrintedTokens(front);
      if last > 0 {
        PrintedToken(last);
        TokenIdsSnoc(Printed(front), FormatInt(last));
        ValuesSnoc(TokenIds(Printed(front)), Some(last));
      }
    }
  }

  lemma {:induction false} PrintedFields(ids: seq<int>)
    requires Int64s(ids)
    ensures Fields(Printed(ids), IsIdSep)
  {
    if ids != [] {
      PrintedFields(ids[..|ids| - 1]);
      if ids[|ids| - 1] > 0 {
        PrintedToken(ids[|ids| - 1]);
      }
    }
  }

  /** Reading the printed form of any 64-bit list gives its first distinct positive ids. */
  lemma CodecRoundTrip(ids: seq<int>, limit: int)
    requires Int64s(ids)
    ensures FileList(ListText(ids), limit) == Cap(Distinct(Positives(ids)), limit)
  {
    PrintedTokens(ids);
    PrintedFields(ids);
    FieldsJoin(Printed(ids), ',', IsIdSep);
    FileListMeans(ListText(ids), limit);
  }

  lemma {:induction false} PositivesFixed(ids: seq<int>)
    requires forall i :: 0 <= i < |ids| ==> ids[i] > 0
    ensures Positives(ids) == ids
  {
    if ids != [] {
      PositivesFixed(ids[..|ids| - 1]);
      assert ids == ids[..|ids| - 1] + [ids[|ids| - 1]];
    }
  }

  lemma FileListRange(raw: string, limit: int)
    ensures NoDuplicates(FileList(raw, limit))
    ensures forall i :: 0 <= i < |FileList(raw, limit)| ==> 0 < FileList(raw, limit)[i] <= MAX_INT64
  {
    var items := TokenIds(FieldsFunc(raw, IsIdSep));
    DistinctMeans(Values(items));
    FileListMeans(raw, limit);
    var ids := FileList(raw, limit);
    forall i | 0 <= i < |ids| ensures 0 < ids[i] <= MAX_INT64 {
      assert ids[i] in Distinct(Values(items));
      ValueItem(items, ids[i]);
    }
  }

  /** Parse, print and parse again: nothing changes, whatever the raw text was. */
  lemma ParsePrintParse(raw: string, limit: int)
    ensures FileList(ListText(FileList(raw, limit)), limit) == FileList(raw, limit)
  {
    var ids := FileList(raw, limit);
    FileListRange(raw, limit);
    PositivesFixed(ids);
    DistinctFixed(ids);
    CodecRoundTrip(ids, limit);
  }

  // ------------------------------------------------------------------
  // What the tokens are
  // ------------------------------------------------------------------

  /** Tokens end at commas, line ends, tabs and blanks. */
  lemma IdSepMeans(c: char)
    ensures IsIdSep(c) <==> c in ", \t\r\n"
  {
    var seps := ", \t\r\n";
    assert seps[0] == ',' && seps[1] == ' ' && seps[2] == '\t' && seps[3] == '\r' && seps[4] == '\n';
  }

  /** The token of an integer counts exactly when it is positive and has 64 bits. */
  lemma TokenIdIff(n: int)
    ensures TokenId(FormatInt(n)) == if 1 <= n <= 9223372036854775807 then Some(n) else None
  {
    var text := FormatInt(n);
    DigitEnds(n);
    TrimFixed(text, IsSpace);
    ParseFormatIff(n);
  }

  lemma DigitEnds(n: int)
    ensures var text := FormatInt(n); text != "" && !IsSpace(text[0]) && !IsSpace(text[|text| - 1])
  {
    var text := FormatInt(n);
    var digits := FormatNat(if n < 0 then -n else n);
    assert IsDigit(digits[0]) && IsDigit(digits[|digits| - 1]);
    assert text[|text| - 1] == digits[|digits| - 1];
  }

  /** A token with anything but digits in it, after the first character, is skipped. */
  lemma TokenSkipped(part: string, i: nat)
    requires i < |part| && TrimSpace(part) == part && part[i] !in "0123456789" && (i > 0 || part[0] !in "+-")
    ensures TokenId(part) == None
  {
    NonDigitRefused(part, i);
  }

  /** The text grows by a comma and the number for each further positive id. */
  lemma ListTextGrows(ids: seq<int>, id: int)
    ensures ListText([]) == ""
    ensures id <= 0 ==> ListText(ids + [id]) == ListText(ids)
    ensures id > 0 ==>
      ListText(ids + [id]) == if ListText(ids) == "" then FormatInt(id) else ListText(ids) + "," + FormatInt(id)
  {
    assert (ids + [id])[..|ids|] == ids;
    JoinSnoc(Printed(ids), FormatInt(id), ',');
    PrintedText(ids);
  }

  lemma {:induction false} PrintedText(ids: seq<int>)
    ensures ListText(ids) == "" <==> Printed(ids) == []
  {
    if ids != [] {
      var front, last := ids[..|ids| - 1], ids[|ids| - 1];
      PrintedText(front);
      JoinSnoc(Printed(front), FormatInt(last), ',');
      DigitEnds(last);
    }
  }

  /** Whatever separates the printed ids, they read back. */
  lemma AnySeparatorReads(ids: seq<int>, sep: char, limit: int)
    requires Int64s(ids) && sep in ", \t\r\n"
    ensures FileList(Join(Printed(ids), sep), limit) == Cap(Distinct(Positives(ids)), limit)
  {
    IdSepMeans(sep);
    PrintedTokens(ids);
    PrintedFields(ids);
    FieldsJoin(Printed(ids), sep, IsIdSep);
    FileListMeans(Join(Printed(ids), sep), limit);
  }
}
