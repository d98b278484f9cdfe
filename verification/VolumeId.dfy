/** The volume ID codec of utils/volume_id.go: two strings around one underscore, their own underscores written "=". */
module VolumeId {
  import opened Outcomes
  import opened Text

  datatype VolumeId = VolumeId(prefix: string, suffix: string)
  {
    function GetUniqueId(): string {
      Replace(prefix, '_', '=') + "_" + Replace(suffix, '_', '=')
    }
  }

  /** The error names the string it could not make an ID of. */
  datatype Malformed = Malformed(volumeString: string)

  function NewVolumeIdFromEncodedString(s: string): Result<VolumeId, Malformed> {
    var parts := Split(s, '_');
    if |parts| != 2 then Err(Malformed(s))
    else Ok(VolumeId(Replace(parts[0], '=', '_'), Replace(parts[1], '=', '_')))
  }

  /** A printed ID, character by character: the prefix, an underscore, the suffix, the underscores of both as "=". */
  lemma PrintIs(id: VolumeId)
    ensures var s, n := id.GetUniqueId(), |id.prefix|;
            && |s| == n + 1 + |id.suffix| && s[n] == '_'
            && (forall i :: 0 <= i < n ==> s[i] == if id.prefix[i] == '_' then '=' else id.prefix[i])
            && (forall i :: 0 <= i < |id.suffix| ==> s[n + 1 + i] == if id.suffix[i] == '_' then '=' else id.suffix[i])
  {
  }

  /** The parser accepts exactly the strings with one underscore, and what it accepts prints back unchanged. */
  lemma PrintParse(s: string)
    ensures NewVolumeIdFromEncodedString(s).Ok? <==> Count(s, '_') == 1
    ensures NewVolumeIdFromEncodedString(s).Ok? ==> NewVolumeIdFromEncodedString(s).value.GetUniqueId() == s
    ensures NewVolumeIdFromEncodedString(s).Err? ==> NewVolumeIdFromEncodedString(s).error == Malformed(s)
  {
    SplitLaws(s, '_');
    var parts := Split(s, '_');
    if |parts| == 2 {
      assert Replace(Replace(parts[0], '=', '_'), '_', '=') == parts[0];
      assert Replace(Replace(parts[1], '=', '_'), '_', '=') == parts[1];
      assert parts[1..] == [parts[1]];
      assert Join(parts, '_') == parts[0] + "_" + parts[1];
    }
  }

  /** Every printed ID is accepted, and gives the pair with each "=" turned into "_". */
  lemma ParsePrint(id: VolumeId)
    ensures NewVolumeIdFromEncodedString(id.GetUniqueId()) ==
            Ok(VolumeId(Replace(id.prefix, '=', '_'), Replace(id.suffix, '=', '_')))
  {
    var p, q := Replace(id.prefix, '_', '='), Replace(id.suffix, '_', '=');
    SplitFront(p, q, '_');
    SplitFree(q, '_');
    assert Replace(p, '=', '_') == Replace(id.prefix, '=', '_');
    assert Replace(q, '=', '_') == Replace(id.suffix, '=', '_');
  }

  /** So the round trip is the identity exactly on IDs without "=": the codec loses "=" and nothing else. */
  lemma RoundTripExactly(id: VolumeId)
    ensures NewVolumeIdFromEncodedString(id.GetUniqueId()) == Ok(id) <==> Free(id.prefix, '=') && Free(id.suffix, '=')
  {
    ParsePrint(id);
    if Free(id.prefix, '=') && Free(id.suffix, '=') {
      assert Replace(id.prefix, '=', '_') == id.prefix && Replace(id.suffix, '=', '_') == id.suffix;
    }
  }

  lemma EqualsIsLost()
    ensures NewVolumeIdFromEncodedString(VolumeId("a=b", "c").GetUniqueId()) == Ok(VolumeId("a_b", "c"))
  {
    ParsePrint(VolumeId("a=b", "c"));
    assert Replace("a=b", '=', '_') == "a_b" && Replace("c", '=', '_') == "c";
  }

  /** One round trip settles an ID: a second changes nothing. */
  lemma RoundTripSettles(id: VolumeId)
    ensures var once := NewVolumeIdFromEncodedString(id.GetUniqueId());
            once.Ok? && NewVolumeIdFromEncodedString(once.value.GetUniqueId()) == once
  {
    ParsePrint(id);
    PrintParse(id.GetUniqueId());
  }

  /** Two IDs print alike exactly when they agree up to exchanging "=" and "_", part by part. */
  lemma PrintAlike(a: VolumeId, b: VolumeId)
    ensures a.GetUniqueId() == b.GetUniqueId() <==>
            && Replace(a.prefix, '=', '_') == Replace(b.prefix, '=', '_')
            && Replace(a.suffix, '=', '_') == Replace(b.suffix, '=', '_')
  {
    ParsePrint(a);
    ParsePrint(b);
    PrintParse(a.GetUniqueId());
    PrintParse(b.GetUniqueId());
  }
}
