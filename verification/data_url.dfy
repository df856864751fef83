/** The prefix handling of `save_base64_image_to_tempfile`: a payload that
    contains the marker `base64,` is cut with `split("base64,")[1]`, which
    keeps only the segment between the first marker and the next one (or
    the end), not everything after the first marker. */
module DataUrl {
  import opened Common
  import opened Text

  const Marker: string := "base64,"

  /** The payload handed to the base64 decoder. */
  function StripDataUrlPrefix(b64: string): (r: string)
    ensures !Contains(b64, Marker) ==> r == b64
    ensures |r| <= |b64|
    ensures !Contains(r, Marker)
  {
    if Contains(b64, Marker) then
      FoundIffContains(b64, Marker);
      SplitPiecesOmitSeparator(b64, Marker);
      JoinSplit(b64, Marker);
      var parts := Split(b64, Marker);
      JoinLength(parts, Marker, 1);
      parts[1]
    else
      b64
  }

  /** Every piece of a join is at most as long as the joined string. */
  lemma {:induction false} JoinLength(parts: seq<string>, sep: string, k: nat)
    requires k < |parts|
    ensures |parts[k]| <= |Join(parts, sep)|
    decreases |parts|
  {
    if k > 0 {
      JoinLength(parts[1..], sep, k - 1);
    }
  }

  /** Stripping is idempotent: its result never contains the marker. */
  lemma StripIdempotent(b64: string)
    ensures StripDataUrlPrefix(StripDataUrlPrefix(b64)) == StripDataUrlPrefix(b64)
  {
  }

  /** With the first marker at `i`, the stripped payload is exactly the
      segment that starts right after that marker and stops at the next
      marker, or at the end when there is no further marker. */
  lemma StripKeepsSegmentAfterFirstMarker(b64: string, i: nat)
    requires OccursAt(b64, Marker, i)
    requires forall k: nat :: k < i ==> !OccursAt(b64, Marker, k)
    ensures var r := StripDataUrlPrefix(b64);
      var start := i + |Marker|;
      && start + |r| <= |b64|
      && r == b64[start..start + |r|]
      && (start + |r| == |b64| || OccursAt(b64, Marker, start + |r|))
      && forall k :: start <= k < start + |r| ==> !OccursAt(b64, Marker, k)
  {
    var start := i + |Marker|;
    StripIsHeadAfterFirstMarker(b64, i);
    HeadSegment(b64, Marker, start);
  }

  /** The first piece of the split of a suffix, seen as a segment of the
      whole string. */
  lemma HeadSegment(s: string, sep: string, start: nat)
    requires |sep| > 0 && start <= |s|
    ensures var h := Split(s[start..], sep)[0];
      && start + |h| <= |s|
      && h == s[start..start + |h|]
      && (start + |h| == |s| || OccursAt(s, sep, start + |h|))
      && forall k :: start <= k < start + |h| ==> !OccursAt(s, sep, k)
  {
    var rest := s[start..];
    var h := Split(rest, sep)[0];
    SplitHead(rest, sep);
    assert rest[..|h|] == s[start..start + |h|];
    if start + |h| < |s| {
      OccursInSuffix(s, sep, start, |h|);
    }
    forall k | start <= k < start + |h|
      ensures !OccursAt(s, sep, k)
    {
      OccursInSuffix(s, sep, start, k - start);
    }
  }

  /** With the first marker at `i`, the stripped payload is the first piece
      of the split of what follows that marker. */
  lemma StripIsHeadAfterFirstMarker(b64: string, i: nat)
    requires OccursAt(b64, Marker, i)
    requires forall k: nat :: k < i ==> !OccursAt(b64, Marker, k)
    ensures i + |Marker| <= |b64|
    ensures StripDataUrlPrefix(b64) == Split(b64[i + |Marker|..], Marker)[0]
  {
    var found := FindFrom(b64, Marker, 0);
    assert found == Some(i);
    FoundIffContains(b64, Marker);
    SplitAt(b64, Marker, i);
  }

  /** When the marker appears a second time, the decoder does not receive
      everything after the first marker: the stripped payload is strictly
      shorter than that suffix. */
  lemma StripDropsSecondMarkerOnwards(b64: string, i: nat, j: nat)
    requires OccursAt(b64, Marker, i)
    requires forall k: nat :: k < i ==> !OccursAt(b64, Marker, k)
    requires i + |Marker| <= j && OccursAt(b64, Marker, j)
    ensures |StripDataUrlPrefix(b64)| <= j - (i + |Marker|)
    ensures StripDataUrlPrefix(b64) != b64[i + |Marker|..]
  {
    StripKeepsSegmentAfterFirstMarker(b64, i);
  }

  /** The data URL of the example below: a header, a marker, the payload
      `QQ==`, a second marker and a trailing payload. */
  function TwoMarkerUrl(): string
  {
    "data:;" + Marker + "QQ==" + Marker + "Qg=="
  }

  /** A concrete data URL carrying two markers: only the segment between
      them reaches the decoder. */
  lemma StripTwoMarkerExample()
    ensures StripDataUrlPrefix(TwoMarkerUrl()) == "QQ=="
  {
    var s := TwoMarkerUrl();
    TwoMarkerUrlOccurrences();
    StripKeepsSegmentAfterFirstMarker(s, 6);
    StripDropsSecondMarkerOnwards(s, 6, 17);
    var r := StripDataUrlPrefix(s);
    if |r| < 4 {
      assert false;
    }
    assert r == s[13..17];
  }

  /** Where the marker does and does not occur in the example URL. */
  lemma TwoMarkerUrlOccurrences()
    ensures OccursAt(TwoMarkerUrl(), Marker, 6)
    ensures OccursAt(TwoMarkerUrl(), Marker, 17)
    ensures forall k: nat :: k < 6 ==> !OccursAt(TwoMarkerUrl(), Marker, k)
    ensures forall k: nat :: 13 <= k < 17 ==> !OccursAt(TwoMarkerUrl(), Marker, k)
    ensures TwoMarkerUrl()[13..17] == "QQ=="
  {
    var s := TwoMarkerUrl();
    assert s[6..13] == Marker;
    assert s[17..24] == Marker;
    assert s[13..17] == "QQ==";
    forall k: nat | k < 6
      ensures !OccursAt(s, Marker, k)
    {
      assert s[k + 6] == Marker[k];
      assert Marker[..6] == "base64";
      assert Marker[k] == Marker[..6][k];
    }
    forall k: nat | 13 <= k < 17
      ensures !OccursAt(s, Marker, k)
    {
      assert s[k] == s[13..17][k - 13];
    }
  }
}
