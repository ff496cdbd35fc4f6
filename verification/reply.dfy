/** Extraction of the assistant's answer from the raw language-model output:
    the text after the last `Assistant:` marker, stripped of whitespace. */
module Reply {
  import opened Text

  const Marker: string := "Assistant:"

  /** The stripped text is a slice of the field, so it cannot hold the marker either. */
  lemma StrippedFieldHasNoMarker(output: string)
    ensures !Contains(Trim(LastField(output, Marker), IsPythonSpace), Marker)
  {
    var f := LastField(output, Marker);
    var a, b :| 0 <= a <= b <= |f| && Trim(f, IsPythonSpace) == f[a..b];
    NoOccurrenceInSlice(f, Marker, a, b);
  }

  /** `response.split("Assistant:")[-1].strip()` */
  function ExtractReply(output: string): (r: string)
    ensures !Contains(r, Marker)
    ensures r != [] ==> !IsPythonSpace(r[0]) && !IsPythonSpace(r[|r| - 1])
    ensures !Contains(output, Marker) ==> r == Trim(output, IsPythonSpace)
  {
    var r := Trim(LastField(output, Marker), IsPythonSpace);
    assert !Contains(r, Marker) by { StrippedFieldHasNoMarker(output); }
    r
  }

  /** Extracting from an extracted reply changes nothing. */
  lemma ExtractIdempotent(output: string)
    ensures ExtractReply(ExtractReply(output)) == ExtractReply(output)
  {
    TrimIdempotent(LastField(output, Marker), IsPythonSpace);
  }

  /** Two occurrences of the marker never overlap: its only colon is its last character. */
  lemma MarkerOccurrencesDisjoint(s: string, i: int, j: int)
    requires OccursAt(s, Marker, i) && OccursAt(s, Marker, j)
    requires i <= j < i + |Marker|
    ensures i == j
  {
    OverlapCharacter(s, i, j);
    assert forall c | 0 <= c < |Marker| - 1 :: Marker[c] != ':';
  }

  /** Where two occurrences overlap, the first one's final colon lies inside the second. */
  lemma OverlapCharacter(s: string, i: int, j: int)
    requires OccursAt(s, Marker, i) && OccursAt(s, Marker, j)
    requires i <= j < i + |Marker|
    ensures Marker[i + |Marker| - 1 - j] == ':'
  {
    var q := i + |Marker| - 1 - j;
    assert s[i + |Marker| - 1] == s[i..i + |Marker|][|Marker| - 1] == ':';
    assert s[j + q] == s[j..j + |Marker|][q];
  }

  /** When the output holds the marker followed by an answer free of it, the
      reply is exactly that answer, stripped. */
  lemma ExtractAfterLastMarker(before: string, answer: string)
    requires !Contains(answer, Marker)
    ensures ExtractReply(before + Marker + answer) == Trim(answer, IsPythonSpace)
  {
    var s := before + Marker + answer;
    LastMarkerFollowsBefore(before, answer);
    assert LastField(s, Marker) == s[|before| + |Marker|..] == answer;
  }

  /** The last field starts right after the marker that ends `before + Marker`. */
  lemma LastMarkerFollowsBefore(before: string, answer: string)
    requires !Contains(answer, Marker)
    ensures LastFieldStart(before + Marker + answer, Marker, 0) == |before| + |Marker|
  {
    var s := before + Marker + answer;
    var m := |before|;
    assert s[m..m + |Marker|] == Marker;
    assert OccursAt(s, Marker, m);
    var p := LastFieldStart(s, Marker, 0);
    assert p > 0;
    var i := p - |Marker|;
    if i > m {
      if i < m + |Marker| {
        MarkerOccurrencesDisjoint(s, m, i);
      } else {
        NoMarkerInAnswer(before, answer, i);
      }
    } else if i < m {
      MarkerOccurrencesDisjoint(s, i, m);
    }
  }

  /** No occurrence of the marker starts inside the answer. */
  lemma NoMarkerInAnswer(before: string, answer: string, i: int)
    requires !Contains(answer, Marker)
    requires |before| + |Marker| <= i
    ensures !OccursAt(before + Marker + answer, Marker, i)
  {
    var s := before + Marker + answer;
    var j := i - |before| - |Marker|;
    if OccursAt(s, Marker, i) {
      assert s[i..i + |Marker|] == answer[j..j + |Marker|];
      assert OccursAt(answer, Marker, j);
    }
  }
}
