/** The text that tells the two capture layouts apart, and where it falls in an exported document (replay.py:62). */
module Layout {
  const MARKER := "\"packets\""
  const REACH := 4096

  predicate OccursAt(text: string, i: nat) {
    i + |MARKER| <= |text| && text[i..i + |MARKER|] == MARKER
  }

  /** Whether the marker is in the first 4096 characters. */
  predicate InReach(text: string) {
    exists i | 0 <= i <= REACH - |MARKER| :: OccursAt(text, i)
  }

  lemma FoundWithin(a: string, text: string, b: string, i: nat)
    requires i + |MARKER| <= |text|
    ensures OccursAt(a + text + b, |a| + i) <==> OccursAt(text, i)
  {
    assert (a + text + b)[|a| + i..|a| + i + |MARKER|] == text[i..i + |MARKER|];
  }

  lemma CharacterOfMarker(text: string, i: nat, k: nat)
    requires OccursAt(text, i) && k < |MARKER|
    ensures text[i + k] == MARKER[k]
  {
    assert text[i + k] == text[i..i + |MARKER|][k];
  }

  /** An occurrence lies to one side of a character that the marker does not contain. */
  lemma OnOneSide(a: string, c: char, b: string, i: nat)
    requires c !in MARKER && OccursAt(a + [c] + b, i)
    ensures if i <= |a| then OccursAt(a, i) else OccursAt(b, i - |a| - 1)
  {
    hide OccursAt;
    var text := a + [c] + b;
    if i <= |a| && i + |MARKER| > |a| {
      CharacterOfMarker(text, i, |a| - i);
      assert false;
    } else if i <= |a| {
      FoundWithin("", a, [c] + b, i);
      assert "" + a + ([c] + b) == text;
    } else {
      Fits(text, i);
      FoundWithin(a + [c], b, "", i - |a| - 1);
      assert a + [c] + b + "" == text;
    }
  }

  lemma Fits(text: string, i: nat)
    requires OccursAt(text, i)
    ensures i + |MARKER| <= |text|
  {
  }

  // ------------------------------------------------------------ exported documents

  const FORMAT_ENTRY := "{\n  \"format\": " + "\"f10diag-capture\""
  const VERSION_ENTRY := ",\n  \"version\": 1"
  const EXPORT_HEAD := FORMAT_ENTRY + VERSION_ENTRY + ",\n  \"session\":"

  /** The text of an exported document, given that of its session and that of its packet list. */
  function ExportText(session: string, packets: string): string {
    EXPORT_HEAD + " " + (session + "," + PacketsEntry(packets))
  }

  function PacketsEntry(packets: string): string {
    "\n  " + MARKER + (": " + packets + "\n}")
  }

  lemma HeadLacksMarker(i: nat)
    ensures !OccursAt(EXPORT_HEAD, i)
  {
    assert 'k' !in FORMAT_ENTRY && 'k' !in VERSION_ENTRY && 'k' !in ",\n  \"session\":";
    if OccursAt(EXPORT_HEAD, i) {
      CharacterOfMarker(EXPORT_HEAD, i, 4);
      assert false;
    }
  }

  lemma FirstInEntry(packets: string, i: nat)
    requires OccursAt(PacketsEntry(packets), i)
    ensures i >= 3
  {
    CharacterOfMarker(PacketsEntry(packets), i, 0);
  }

  /** The marker is in reach exactly when the session's text holds it early, or is short enough for the key after it. */
  lemma MarkerOfExport(session: string, packets: string)
    ensures InReach(ExportText(session, packets))
       <==> |session| <= 4021 || exists i | 0 <= i <= 4025 :: OccursAt(session, i)
  {
    hide OccursAt, PacketsEntry, ExportText;
    var text := ExportText(session, packets);
    KeyOfExport(session, packets);
    forall i: nat | i + |MARKER| <= |session| ensures OccursAt(session, i) <==> OccursAt(text, 62 + i) {
      SessionOfExport(session, packets, i);
    }
    forall i: nat | OccursAt(session, i) ensures i + |MARKER| <= |session| {
      Fits(session, i);
    }
    forall i: nat | OccursAt(text, i)
      ensures i >= 66 + |session| || (i >= 62 && OccursAt(session, i - 62))
    {
      PlacesInExport(session, packets, i);
    }
    if |session| <= 4021 {
      assert OccursAt(text, 66 + |session|);
    }
    if i: nat :| i <= 4025 && OccursAt(session, i) {
      assert OccursAt(text, 62 + i);
    }
  }

  lemma KeyOfExport(session: string, packets: string)
    ensures OccursAt(ExportText(session, packets), 66 + |session|)
  {
    hide OccursAt;
    var before, after := EXPORT_HEAD + " " + session + "," + "\n  ", ": " + packets + "\n}";
    assert before + MARKER + after == ExportText(session, packets);
    MarkerItself();
    FoundWithin(before, MARKER, after, 0);
    assert |before| == 66 + |session|;
  }

  lemma MarkerItself()
    ensures OccursAt(MARKER, 0)
  {
    assert MARKER[0..|MARKER|] == MARKER;
  }

  lemma SessionOfExport(session: string, packets: string, i: nat)
    requires i + |MARKER| <= |session|
    ensures OccursAt(session, i) <==> OccursAt(ExportText(session, packets), 62 + i)
  {
    hide OccursAt, PacketsEntry;
    var before, after := EXPORT_HEAD + " ", "," + PacketsEntry(packets);
    assert before + session + after == ExportText(session, packets);
    FoundWithin(before, session, after, i);
  }

  /** No occurrence overlaps the text around the session. */
  lemma PlacesInExport(session: string, packets: string, i: nat)
    requires OccursAt(ExportText(session, packets), i)
    ensures i >= 66 + |session| || (i >= 62 && OccursAt(session, i - 62))
  {
    hide OccursAt, PacketsEntry;
    var entry := PacketsEntry(packets);
    assert ' ' !in MARKER && ',' !in MARKER && |EXPORT_HEAD| == 61;
    OnOneSide(EXPORT_HEAD, ' ', session + "," + entry, i);
    if i <= |EXPORT_HEAD| {
      HeadLacksMarker(i);
    } else {
      OnOneSide(session, ',', entry, i - 62);
      if i - 62 > |session| {
        FirstInEntry(packets, i - 63 - |session|);
      }
    }
  }
}
