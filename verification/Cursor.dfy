/** The page cursor, as the bytes under its base64 coat. */
module Cursor {
  import opened Domain
  import opened Timestamps
  import opened Chronology
  import opened Instants

  const SEPARATOR := '\0'

  datatype Position = Position(recordedAt: string, ref: string)

  function Encode(recordedAt: string, ref: string): string {
    recordedAt + [SEPARATOR] + ref
  }

  /** The text before and after the first separator. */
  function Cut(raw: string): (r: Option<(string, string)>)
    ensures r.None? ==> SEPARATOR !in raw
    ensures r.Some? ==> raw == r.value.0 + [SEPARATOR] + r.value.1 && SEPARATOR !in r.value.0
  {
    if raw == "" then None
    else if raw[0] == SEPARATOR then Some(("", raw[1..]))
    else
      var rest := Cut(raw[1..]);
      if rest.None? then None else Some(([raw[0]] + rest.value.0, rest.value.1))
  }

  /** A component missing or a timestamp that does not parse is the caller's error. */
  function Decode(raw: string): Option<Position> {
    var parts := Cut(raw);
    if parts.None? || parts.value.0 == "" || parts.value.1 == "" then None
    else if Parse(parts.value.0).None? then None
    else Some(Position(parts.value.0, parts.value.1))
  }

  /** A timestamp that parses holds no separator. */
  lemma TimestampHasNoSeparator(s: string)
    requires Parse(s).Some?
    ensures SEPARATOR !in s
  {
    var tail := s[19..];
    TailHasNoSeparator(tail);
    assert forall i :: 0 <= i < 4 ==> s[i] == s[..4][i];
    assert forall i :: 5 <= i < 7 ==> s[i] == s[5..7][i - 5];
    assert forall i :: 8 <= i < 10 ==> s[i] == s[8..10][i - 8];
    assert forall i :: 11 <= i < 13 ==> s[i] == s[11..13][i - 11];
    assert forall i :: 14 <= i < 16 ==> s[i] == s[14..16][i - 14];
    assert forall i :: 17 <= i < 19 ==> s[i] == s[17..19][i - 17];
    assert forall i :: 19 <= i < |s| ==> s[i] == tail[i - 19];
  }

  lemma TailHasNoSeparator(s: string)
    requires ParseTail(s).Some?
    ensures SEPARATOR !in s
  {
    var n := if s != "" && s[0] == '.' then DigitRun(s[1..]) else 0;
    var zone := if n > 0 then s[n + 1..] else s;
    ZoneHasNoSeparator(zone);
    if n > 0 {
      assert AllDigits(s[1..][..n]);
      assert forall i :: 1 <= i < n + 1 ==> s[i] == s[1..][..n][i - 1];
      assert forall i :: n + 1 <= i < |s| ==> s[i] == zone[i - n - 1];
    }
  }

  lemma ZoneHasNoSeparator(s: string)
    requires ParseZone(s).Some?
    ensures SEPARATOR !in s
  {
    if s != "Z" {
      assert AllDigits(s[1..3]) && AllDigits(s[4..6]);
      assert s[1] == s[1..3][0] && s[2] == s[1..3][1] && s[4] == s[4..6][0] && s[5] == s[4..6][1];
    }
  }

  lemma {:induction false} CutAtFirst(a: string, b: string)
    requires SEPARATOR !in a
    ensures Cut(a + [SEPARATOR] + b) == Some((a, b))
  {
    if a == "" {
      assert (a + [SEPARATOR] + b)[1..] == b;
    } else {
      assert (a + [SEPARATOR] + b)[1..] == a[1..] + [SEPARATOR] + b;
      CutAtFirst(a[1..], b);
      assert a == [a[0]] + a[1..];
    }
  }

  /** Decoding an encoded position gives it back for every timestamp that parses and every nonempty
      ref, even one that holds the separator; and nothing else decodes to it. */
  lemma CursorRoundTrip(recordedAt: string, ref: string)
    requires Parse(recordedAt).Some? && ref != ""
    ensures Decode(Encode(recordedAt, ref)) == Some(Position(recordedAt, ref))
    ensures forall raw :: Decode(raw) == Some(Position(recordedAt, ref)) ==> raw == Encode(recordedAt, ref)
  {
    TimestampHasNoSeparator(recordedAt);
    CutAtFirst(recordedAt, ref);
  }

  /** A cursor rebuilt from a row whose timestamp was scanned and formatted again names exactly the
      stored key of that row. */
  lemma RebuiltCursor(recordedAt: string, ref: string)
    requires Stored(recordedAt) && Parse(recordedAt).Some? && ref != ""
    ensures Decode(Encode(FormatTime(InstantOf(Parse(recordedAt).value)), ref)) == Some(Position(recordedAt, ref))
  {
    FormatParse(recordedAt);
    CursorRoundTrip(recordedAt, ref);
  }
}
