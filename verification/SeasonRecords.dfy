/** Season challenge records as they are stored: `cleanOneLiner` and the whole of `normalizeSeasonChallenge`. */
module SeasonRecords {
  import opened Wrappers
  import opened Text
  import opened SeasonTally
  import opened SeasonRanking

  const ELLIPSIS: string := "\U{2026}"

  function Unbroken(c: char): char {
    if c == '\r' || c == '\n' then ' ' else c
  }

  /** strings.ReplaceAll of carriage returns and newlines by spaces */
  function UnbrokenText(s: string): (r: string)
    ensures |r| == |s| && forall i :: 0 <= i < |s| ==> r[i] == Unbroken(s[i])
  {
    seq(|s|, i requires 0 <= i < |s| => Unbroken(s[i]))
  }

  function Shortened(s: string, limit: nat): string
    requires limit > 1
  {
    if |s| <= limit then s else s[..limit - 1] + ELLIPSIS
  }

  /** `cleanOneLiner`, for the limits it is used with */
  function OneLiner(value: string, limit: nat): string
    requires limit > 1
  {
    Shortened(Join(FieldsFunc(TrimSpace(UnbrokenText(value)), IsSpace), ' '), limit)
  }

  /** Single blanks between words, and nothing else that is white space. */
  ghost predicate IsLine(s: string) {
    forall i :: 0 <= i < |s| && IsSpace(s[i]) ==> s[i] == ' ' && 0 < i < |s| - 1 && !IsSpace(s[i + 1])
  }

  lemma {:induction false} FieldsMakeLine(parts: seq<string>)
    requires Fields(parts, IsSpace)
    ensures IsLine(Join(parts, ' '))
    ensures parts != [] ==> Join(parts, ' ') != "" && !IsSpace(Join(parts, ' ')[0])
  {
    if |parts| > 1 {
      var rest := parts[1..];
      assert forall i :: 0 <= i < |rest| ==> rest[i] == parts[i + 1];
      FieldsMakeLine(rest);
      LineJoins(parts[0], Join(rest, ' '));
    }
  }

  lemma LineJoins(word: string, line: string)
    requires word != "" && forall i :: 0 <= i < |word| ==> !IsSpace(word[i])
    requires IsLine(line) && line != "" && !IsSpace(line[0])
    ensures IsLine(word + [' '] + line)
  {
    var s, n := word + [' '] + line, |word|;
    forall i | 0 <= i < |s| && IsSpace(s[i]) ensures s[i] == ' ' && 0 < i < |s| - 1 && !IsSpace(s[i + 1]) {
      if i > n {
        assert s[i] == line[i - n - 1];
      }
    }
  }

  lemma LineTail(s: string, n: nat)
    requires IsLine(s) && n < |s| && IsSpace(s[n])
    ensures s[n] == ' ' && IsLine(s[n + 1..]) && s[n + 1..] != "" && !IsSpace(s[n + 1..][0])
  {
    var rest := s[n + 1..];
    assert forall i :: 0 <= i < |rest| ==> rest[i] == s[n + 1 + i];
  }

  /** The first word of a line, and the words after it. */
  lemma LineParts(s: string, n: nat)
    requires s != "" && !IsSpace(s[0]) && n == RunLength(s, IsSpace) < |s| && s[n] == ' '
    ensures s == s[..n] + [' '] + s[n + 1..]
    ensures FieldsFunc(s, IsSpace) == [s[..n]] + FieldsFunc(s[n + 1..], IsSpace)
  {
    assert s[n..][0] == ' ' && s[n..][1..] == s[n + 1..];
  }

  /** A line is put together again from its words. */
  lemma {:induction false} LineFields(s: string)
    requires IsLine(s)
    ensures Join(FieldsFunc(s, IsSpace), ' ') == s
    decreases |s|
  {
    if s != "" {
      var n := RunLength(s, IsSpace);
      if n == |s| {
        OneWord(s);
      } else {
        LineTail(s, n);
        LineParts(s, n);
        LineFields(s[n + 1..]);
        JoinWord(s[..n], FieldsFunc(s[n + 1..], IsSpace));
      }
    }
  }

  lemma OneWord(s: string)
    requires s != "" && RunLength(s, IsSpace) == |s|
    ensures FieldsFunc(s, IsSpace) == [s]
  {
    assert s[..|s|] == s && s[|s|..] == "";
    assert !IsSpace(s[0]);
  }

  lemma JoinWord(word: string, words: seq<string>)
    requires Join(words, ' ') != ""
    ensures Join([word] + words, ' ') == word + [' '] + Join(words, ' ')
  {
    assert ([word] + words)[1..] == words;
  }

  lemma ShortenedLine(s: string, limit: nat)
    requires IsLine(s) && limit > 1
    ensures IsLine(Shortened(s, limit)) && |Shortened(s, limit)| <= limit
  {
    var r := Shortened(s, limit);
    if |s| > limit {
      forall i | 0 <= i < |r| && IsSpace(r[i]) ensures r[i] == ' ' && 0 < i < |r| - 1 && !IsSpace(r[i + 1]) {
        assert r[i] == s[i];
      }
    }
  }

  lemma LineKept(s: string, limit: nat)
    requires IsLine(s) && limit > 1 && |s| <= limit
    ensures OneLiner(s, limit) == s
  {
    assert UnbrokenText(s) == s;
    TrimFixed(s, IsSpace);
    LineFields(s);
  }

  /** The result is a line within the limit, and lines within the limit are left alone. */
  lemma OneLinerOnce(value: string, limit: nat)
    requires limit > 1
    ensures IsLine(OneLiner(value, limit)) && |OneLiner(value, limit)| <= limit
    ensures OneLiner(OneLiner(value, limit), limit) == OneLiner(value, limit)
  {
    var text := TrimSpace(UnbrokenText(value));
    FieldsAreFields(text, IsSpace);
    FieldsMakeLine(FieldsFunc(text, IsSpace));
    ShortenedLine(Join(FieldsFunc(text, IsSpace), ' '), limit);
    LineKept(OneLiner(value, limit), limit);
  }

  /** The words of the text with single blanks; cut, with an ellipsis, where that is longer than the limit. */
  lemma OneLinerMeans(value: string, limit: nat)
    requires limit > 1
    ensures var line := Join(FieldsFunc(value, IsSpace), ' ');
      OneLiner(value, limit) == if |line| <= limit then line else line[..limit - 1] + "\U{2026}"
  {
    FieldsSame(UnbrokenText(value), value, IsSpace);
    FieldsTrim(UnbrokenText(value), IsSpace);
  }

  // ------------------------------------------------------------------
  // Records
  // ------------------------------------------------------------------

  datatype Record = Record(id: string, name: string, theme: string, description: string, challenge: Challenge,
                           active: bool, updatedBy: string, updatedAt: int)

  /** `normalizeSeasonChallenge`; `freshId` is what `randomEventID` gives, if it is asked. */
  function NormalizeRecord(row: Record, now: int, freshId: string): Option<Record> {
    var name, id := OneLiner(row.name, 96), TrimSpace(row.id);
    if name == "" then None
    else Some(Record(
      if id == "" then freshId else id, name, OneLiner(row.theme, 96), OneLiner(row.description, 260),
      Normalize(row.challenge, now), row.active, Key(row.updatedBy),
      if row.updatedAt == ZERO_TIME then now else row.updatedAt))
  }

  lemma KeyOnce(handle: string)
    ensures Key(Key(handle)) == Key(handle)
  {
    TrimLowerCommute(TrimSpace(handle));
    TrimIdempotent(handle, IsSpace);
    ToLowerIdempotent(TrimSpace(handle));
  }

  /** A normalised record is accepted again, at any later time, and nothing in it changes. */
  lemma NormalizeRecordOnce(row: Record, now: int, freshId: string, later: int, otherId: string)
    requires TrimSpace(freshId) == freshId != "" && now != ZERO_TIME
    requires row.challenge.startsAt != ZERO_TIME || now - DAY != ZERO_TIME
    requires NormalizeRecord(row, now, freshId).Some?
    ensures var once := NormalizeRecord(row, now, freshId).value;
      NormalizeRecord(once, later, otherId) == Some(once) && IsNormal(once.challenge)
  {
    OneLinerOnce(row.name, 96);
    OneLinerOnce(row.theme, 96);
    OneLinerOnce(row.description, 260);
    NormalizeOnce(row.challenge, now, later);
    KeyOnce(row.updatedBy);
    TrimIdempotent(row.id, IsSpace);
  }

  /** A record is refused exactly if no word is in its name; otherwise each field is cleaned in its own way. */
  lemma NormalizeRecordMeans(row: Record, now: int, freshId: string)
    ensures NormalizeRecord(row, now, freshId) == None <==> FieldsFunc(row.name, IsSpace) == []
    ensures NormalizeRecord(row, now, freshId).Some? ==>
      var r := NormalizeRecord(row, now, freshId).value;
      && r.id == (if TrimSpace(row.id) == "" then freshId else TrimSpace(row.id))
      && r.name == OneLiner(row.name, 96) && r.theme == OneLiner(row.theme, 96)
      && r.description == OneLiner(row.description, 260)
      && r.challenge == Normalize(row.challenge, now) && r.active == row.active
      && r.updatedBy == ToLower(TrimSpace(row.updatedBy))
      && r.updatedAt == if row.updatedAt == 0 then now else row.updatedAt
  {
    OneLinerMeans(row.name, 96);
    FieldsAreFields(row.name, IsSpace);
    FieldsMakeLine(FieldsFunc(row.name, IsSpace));
  }
}
