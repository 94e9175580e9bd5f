/** The reconciliation of a pull request's description with a freshly
    generated one, as the reconcile variant of the action computes it
    (`updatedBody`). */
module Section {
  import opened Wrappers
  import opened Text

  /** The heading line that starts the generated section; the title, with the
      robot emoji, follows two line breaks. */
  const Title: string := "## \U{1F916} PR Summarizer"

  /** The literal the action searches for (`aiSectionRegex`). */
  const Marker: string := "\n\n" + Title

  /** The text written in front of each generated description (`aiHeader`):
      the marker followed by a blank line. */
  const Header: string := Marker + "\n\n"

  /** `pr.body || ''`: a null or empty body is the empty text. */
  function BodyText(body: Option<string>): (text: string)
    ensures body.None? ==> text == ""
    ensures body.Some? ==> text == body.value
  {
    match body
    case None => ""
    case Some(s) => s
  }

  /** `updatedBody`: when the marker occurs, its first occurrence is replaced
      by the header and the description is appended at the very end;
      otherwise header and description are appended to the body. */
  function Reconcile(existing: string, description: string): (r: string)
    ensures Contains(r, Marker)
    ensures |r| == |existing| + |description| + (if Contains(existing, Marker) then 2 else |Header|)
    ensures r[|r| - |description|..] == description
  {
    if IndexOf(existing, Marker).Some? then
      var i := IndexOf(existing, Marker).value;
      assert OccursAt(ReplaceFirst(existing, Marker, Header) + description, Marker, i);
      ReplaceFirst(existing, Marker, Header) + description
    else
      assert OccursAt(existing + (Header + description), Marker, |existing|);
      existing + (Header + description)
  }

  /** Without a marker the body is kept as a prefix, the header follows it
      and the description ends the result; an empty or null body is the
      same case. */
  lemma ReconcileAppendsWhenAbsent(existing: string, description: string)
    requires !Contains(existing, Marker)
    ensures Reconcile(existing, description) == existing + Header + description
    ensures Reconcile(existing, description)[..|existing|] == existing
    ensures Reconcile(existing, description)[|existing|..|existing| + |Header|] == Header
  {
  }

  /** With the first marker at `i`, everything up to the end of that marker
      is kept, a blank line is inserted, the rest of the old body follows
      verbatim, and the description is appended after it. */
  lemma ReconcileInsertsAfterMarker(existing: string, description: string, i: nat)
    requires IndexOf(existing, Marker) == Some(i)
    ensures Reconcile(existing, description)
      == existing[..i + |Marker|] + "\n\n" + existing[i + |Marker|..] + description
    ensures |Reconcile(existing, description)| == |existing| + 2 + |description|
  {
    assert ReplaceFirst(existing, Marker, Header) == existing[..i] + Header + existing[i + |Marker|..];
    assert existing[..i] + Marker == existing[..i + |Marker|];
    assert existing[..i] + Header == existing[..i + |Marker|] + "\n\n";
  }

  /** The new header cannot combine with the tail of a marker-free body into
      an earlier marker: no proper suffix of the marker is a prefix of it. */
  lemma NoMarkerAcrossJoin(existing: string, rest: string, j: int)
    requires !Contains(existing, Marker)
    requires j < |existing|
    ensures !OccursAt(existing + Header + rest, Marker, j)
  {
    var s := existing + Header + rest;
    if 0 <= j && j + |Marker| <= |s| {
      var window := s[j..j + |Marker|];
      if j + |Marker| <= |existing| {
        assert window == existing[j..j + |Marker|];
        assert !OccursAt(existing, Marker, j);
      } else {
        var k := |existing| - j;
        assert s[|existing|] == Header[0] == '\n';
        assert window[k] == '\n';
        if k >= 2 {
          assert '\n' !in Title;
          assert Marker[k] == Title[k - 2];
          assert window[k] != Marker[k];
        } else {
          assert s[|existing| + 1] == Header[1] == '\n';
          assert window[2] == '\n' != Marker[2];
        }
      }
    }
  }

  /** Reconciling never moves the start of the generated section: its first
      marker is where the old body's first marker was, or, when there was
      none, right after the old body. */
  lemma ReconcileKeepsSectionStart(existing: string, description: string)
    ensures IndexOf(Reconcile(existing, description), Marker)
      == Some(match IndexOf(existing, Marker) case Some(i) => i case None => |existing|)
  {
    match IndexOf(existing, Marker)
    case Some(i) => KeepsExistingMarker(existing, description, i);
    case None => FirstMarkerAfterBody(existing, description);
  }

  lemma KeepsExistingMarker(existing: string, description: string, i: nat)
    requires IndexOf(existing, Marker) == Some(i)
    ensures IndexOf(Reconcile(existing, description), Marker) == Some(i)
  {
    ReconcileInsertsAfterMarker(existing, description, i);
    var r := existing[..i + |Marker|] + "\n\n" + existing[i + |Marker|..] + description;
    var kept := existing[..i + |Marker|];
    assert r[..i + |Marker|] == kept;
    assert r[i..i + |Marker|] == existing[i..i + |Marker|];
    assert OccursAt(r, Marker, i);
    forall j | 0 <= j < i ensures !OccursAt(r, Marker, j) {
      assert r[j..j + |Marker|] == existing[j..j + |Marker|];
      assert !OccursAt(existing, Marker, j);
    }
    assert IndexOf(r, Marker) == Some(i);
  }

  lemma FirstMarkerAfterBody(existing: string, description: string)
    requires !Contains(existing, Marker)
    ensures IndexOf(Reconcile(existing, description), Marker) == Some(|existing|)
  {
    ReconcileAppendsWhenAbsent(existing, description);
    var r := existing + Header + description;
    assert r[|existing|..|existing| + |Marker|] == Marker;
    assert OccursAt(r, Marker, |existing|);
    forall j | 0 <= j < |existing| ensures !OccursAt(r, Marker, j) {
      NoMarkerAcrossJoin(existing, description, j);
    }
    assert IndexOf(r, Marker) == Some(|existing|);
  }

  /** Where the first run put its description: at the end, after the
      marker it found or wrote. */
  lemma FirstRunLayout(existing: string, description: string)
    ensures var once := Reconcile(existing, description);
      var start := match IndexOf(existing, Marker) case Some(i) => i case None => |existing|;
      start + |Marker| <= |once| - |description|
  {
  }

  /** A second run keeps the first run's text: the result ends with both
      descriptions, in order, and grows by exactly two characters plus the
      new description, so reconciliation is never idempotent. */
  lemma ReconcileAccumulates(existing: string, first: string, second: string)
    ensures var once := Reconcile(existing, first);
      var twice := Reconcile(once, second);
      && |twice| == |once| + 2 + |second|
      && twice[|twice| - |first + second|..] == first + second
      && twice != once
  {
    var once := Reconcile(existing, first);
    var start := match IndexOf(existing, Marker) case Some(i) => i case None => |existing|;
    ReconcileKeepsSectionStart(existing, first);
    FirstRunLayout(existing, first);
    RerunKeepsTail(once, first, second, start);
    var twice := Reconcile(once, second);
    assert |twice| - |first + second| == |once| + 2 - |first|;
    assert |twice| != |once|;
  }

  /** Re-running on a body whose generated description `first` lies after
      its first marker leaves `first` in place, followed by `second`. */
  lemma RerunKeepsTail(once: string, first: string, second: string, start: nat)
    requires IndexOf(once, Marker) == Some(start)
    requires start + |Marker| <= |once| - |first|
    requires once[|once| - |first|..] == first
    ensures |Reconcile(once, second)| == |once| + 2 + |second|
    ensures Reconcile(once, second)[|once| + 2 - |first|..] == first + second
  {
    ReconcileInsertsAfterMarker(once, second, start);
    var cut := start + |Marker|;
    var tail := once[cut..];
    var twice := once[..cut] + "\n\n" + tail + second;
    assert tail[|tail| - |first|..] == first;
    assert twice[|once| + 2 - |first|..] == tail[|tail| - |first|..] + second;
  }

  /** On a marker-free body, two runs leave the header, an extra blank
      line, and both descriptions one after the other. */
  lemma ReconcileTwiceOnFreshBody(existing: string, first: string, second: string)
    requires !Contains(existing, Marker)
    ensures Reconcile(Reconcile(existing, first), second)
      == existing + Header + "\n\n" + first + second
  {
    var once := Reconcile(existing, first);
    ReconcileAppendsWhenAbsent(existing, first);
    FirstMarkerAfterBody(existing, first);
    ReconcileInsertsAfterMarker(once, second, |existing|);
    assert once == (existing + Marker) + ("\n\n" + first);
    assert once[..|existing| + |Marker|] == existing + Marker;
    assert once[|existing| + |Marker|..] == "\n\n" + first;
    calc {
      Reconcile(once, second);
      once[..|existing| + |Marker|] + "\n\n" + once[|existing| + |Marker|..] + second;
      (existing + Marker) + "\n\n" + ("\n\n" + first) + second;
      existing + Header + "\n\n" + first + second;
    }
  }

  /** The description is not searched for markers: one that starts with the
      section's title leaves a second marker right after the header on the
      very first run. */
  lemma FirstRunCanLeaveTwoMarkers(description: string)
    ensures var r := Reconcile("", Title + description);
      OccursAt(r, Marker, 0) && OccursAt(r, Marker, |Marker|)
  {
    ReconcileEmptyBody(None, Title + description);
    var r := Header + (Title + description);
    assert r == Marker + ("\n\n" + Title) + description;
    assert r[|Marker|..2 * |Marker|] == "\n\n" + Title;
  }

  /** A null or empty body is the first-run case: the result is the header
      followed by the description, and nothing else. */
  lemma ReconcileEmptyBody(body: Option<string>, description: string)
    requires body.None? || body == Some("")
    ensures Reconcile(BodyText(body), description) == Header + description
  {
  }
}
