/**
  The path-token codec of package `model`: `PathInfo.ToPathInfoString` and
  `NewPathInfoFromBase64`. A token is `payload "." checksum`, where the payload is the
  Base64 of the JSON form of the path and the checksum the hex MD5 of the payload.
 */
module PathToken {
  import opened Wrappers
  import opened GoStrings
  import opened Digest
  import Base64
  import PathJson
  import Utf8
  import Hex

  datatype PathInfo = PathInfo(path: GoString)

  /** Why a token is refused, one constructor per error the decoder can return. */
  datatype TokenError =
    | NoSeparator   // "unable to find separator"
    | Unverified    // "unable to verify data"
    | BadBase64     // base64.CorruptInputError
    | BadJson       // the error of json.Unmarshal

  /** A token carries exactly one separator, and the part after it is the checksum of the part before it. */
  predicate WellFormed(token: GoString, md5: Md5) {
    Count(token, Dot) == 1 &&
    var parts := Split(token, Dot);
    |parts| == 2 && parts[1] == Md5OfBytes(md5, parts[0])
  }

  /** The payload of the token for `pi`. */
  function Payload(pi: PathInfo): GoString {
    Base64.Encode(PathJson.Marshal(pi.path))
  }

  /** `ToPathInfoString`. */
  function ToPathInfoString(pi: PathInfo, md5: Md5): (token: GoString)
    ensures WellFormed(token, md5)
  {
    var payload := Payload(pi);
    Base64.EncodeHasNoNewlines(PathJson.Marshal(pi.path));
    SplitTwo(payload, Md5OfBytes(md5, payload), Dot);
    payload + [Dot] + Md5OfBytes(md5, payload)
  }

  /**
    `NewPathInfoFromBase64`. The separator checks come first, then the checksum; only a
    token whose checksum matches its payload ever reaches the Base64 and JSON decoders.
    `Ok(None)` is the nil `*PathInfo` returned with a nil error when the JSON is `null`.
   */
  function NewPathInfoFromBase64(token: GoString, md5: Md5): (r: Result<Option<PathInfo>, TokenError>)
    ensures r == Err(NoSeparator) <==> Count(token, Dot) != 1
    ensures r == Err(Unverified) <==> Count(token, Dot) == 1 && !WellFormed(token, md5)
    ensures r.Ok? ==> WellFormed(token, md5)
  {
    SplitCount(token, Dot);
    if Dot !in token then Err(NoSeparator)
    else
      var parts := Split(token, Dot);
      if |parts| != 2 then Err(NoSeparator)
      else if Md5OfBytes(md5, parts[0]) != parts[1] then Err(Unverified)
      else
        match Base64.Decode(parts[0])
        case None => Err(BadBase64)
        case Some(data) =>
          match PathJson.Unmarshal(data)
          case None => Err(BadJson)
          case Some(d) => if d.Null? then Ok(None) else Ok(Some(PathInfo(d.path)))
  }

  /** Round trip: decoding a token gives back its path, with invalid UTF-8 replaced by U+FFFD. */
  lemma RoundTrip(pi: PathInfo, md5: Md5)
    ensures NewPathInfoFromBase64(ToPathInfoString(pi, md5), md5) == Ok(Some(PathInfo(Utf8.Sanitize(pi.path))))
  {
    var payload := Payload(pi);
    Base64.EncodeHasNoNewlines(PathJson.Marshal(pi.path));
    SplitTwo(payload, Md5OfBytes(md5, payload), Dot);
    Base64.DecodeEncode(PathJson.Marshal(pi.path));
    PathJson.UnmarshalMarshal(pi.path);
  }

  /**
    With MD5's 16-byte digests, a token is a padded Base64 payload (a multiple of four
    characters), its one `.`, and 32 lower-case hex digits.
   */
  lemma TokenShape(pi: PathInfo, md5: Md5)
    requires |md5(Payload(pi))| == 16
    ensures var token := ToPathInfoString(pi, md5);
            && |token| >= 33
            && Count(token, Dot) == 1
            && token[|token| - 33] == Dot
            && (|token| - 33) % 4 == 0
            && forall i :: |token| - 32 <= i < |token| ==> Hex.IsLowerHexDigit(token[i])
  {
    TokenParts(pi, md5);
    PayloadQuanta(pi);
    var payload := Payload(pi);
    TokenTail(payload, Md5OfBytes(md5, payload));
  }

  /** A token is its payload, the separator and the checksum, with no other separator. */
  lemma TokenParts(pi: PathInfo, md5: Md5)
    ensures ToPathInfoString(pi, md5) == Payload(pi) + [Dot] + Md5OfBytes(md5, Payload(pi))
    ensures Count(ToPathInfoString(pi, md5), Dot) == 1
  {
  }

  /** The payload is whole Base64 quanta. */
  lemma PayloadQuanta(pi: PathInfo)
    ensures |Payload(pi)| % 4 == 0
  {
  }

  lemma TokenTail(payload: GoString, sum: GoString)
    requires |payload| % 4 == 0 && |sum| == 32
    requires forall i :: 0 <= i < |sum| ==> Hex.IsLowerHexDigit(sum[i])
    ensures var token := payload + [Dot] + sum;
            && |token| >= 33
            && token[|token| - 33] == Dot
            && (|token| - 33) % 4 == 0
            && forall i :: |token| - 32 <= i < |token| ==> Hex.IsLowerHexDigit(token[i])
  {
    var token := payload + [Dot] + sum;
    assert |token| - 33 == |payload|;
    forall i | |token| - 32 <= i < |token|
      ensures Hex.IsLowerHexDigit(token[i])
    {
      assert token[i] == sum[i - |payload| - 1];
    }
  }

  /** For a path that is valid UTF-8, as every path of a UTF-8 file system is, the round trip is exact. */
  lemma RoundTripValid(pi: PathInfo, md5: Md5)
    requires Utf8.Valid(pi.path)
    ensures NewPathInfoFromBase64(ToPathInfoString(pi, md5), md5) == Ok(Some(pi))
  {
    RoundTrip(pi, md5);
    Utf8.SanitizeIdentity(pi.path);
  }

  /**
    A verified token whose payload is the Base64 of `null` decodes without error to no
    `PathInfo` at all.
   */
  lemma NullTokenAccepted(md5: Md5)
    ensures var payload := Base64.Encode(PathJson.NullLiteral);
            NewPathInfoFromBase64(payload + [Dot] + Md5OfBytes(md5, payload), md5) == Ok(None)
  {
    var payload := Base64.Encode(PathJson.NullLiteral);
    Base64.EncodeHasNoNewlines(PathJson.NullLiteral);
    SplitTwo(payload, Md5OfBytes(md5, payload), Dot);
    Base64.DecodeEncode(PathJson.NullLiteral);
  }

  /**
    The checksum is checked before anything is decoded: a payload with a wrong checksum is
    refused as unverified whatever the payload holds, Base64 or not.
   */
  lemma ChecksumCheckedFirst(payload: GoString, checksum: GoString, md5: Md5)
    requires Dot !in payload && Dot !in checksum
    requires checksum != Md5OfBytes(md5, payload)
    ensures NewPathInfoFromBase64(payload + [Dot] + checksum, md5) == Err(Unverified)
  {
    SplitTwo(payload, checksum, Dot);
  }

  /** Changing any character of a token's checksum (to anything but the separator) makes it unverifiable. */
  lemma TamperedChecksumRejected(pi: PathInfo, md5: Md5, k: int, x: byte)
    requires |Payload(pi)| < k < |ToPathInfoString(pi, md5)|
    requires x != Dot && x != ToPathInfoString(pi, md5)[k]
    ensures NewPathInfoFromBase64(ToPathInfoString(pi, md5)[k := x], md5) == Err(Unverified)
  {
    var payload := Payload(pi);
    var sum := Md5OfBytes(md5, payload);
    var j := k - |payload| - 1;
    var forged := sum[j := x];
    assert ToPathInfoString(pi, md5)[k := x] == payload + [Dot] + forged;
    assert forged[j] != sum[j];
    assert Dot !in forged by {
      forall i | 0 <= i < |forged|
        ensures forged[i] != Dot
      {
        if i != j {
          assert forged[i] == sum[i];
        }
      }
    }
    Base64.EncodeHasNoNewlines(PathJson.Marshal(pi.path));
    ChecksumCheckedFirst(payload, forged, md5);
  }

  /**
    Changing a checksum character to the separator itself gives the token a second `.`, and
    the token is then refused as having no (single) separator, before any checksum test.
   */
  lemma ChecksumSeparatorRejected(pi: PathInfo, md5: Md5, k: int)
    requires |Payload(pi)| < k < |ToPathInfoString(pi, md5)|
    ensures NewPathInfoFromBase64(ToPathInfoString(pi, md5)[k := Dot], md5) == Err(NoSeparator)
  {
    var payload := Payload(pi);
    var sum := Md5OfBytes(md5, payload);
    var j := k - |payload| - 1;
    var forged := sum[j := Dot];
    assert ToPathInfoString(pi, md5)[k := Dot] == payload + [Dot] + forged;
    assert forged[j] == Dot;
    CountConcat(payload + [Dot], forged, Dot);
    CountConcat(payload, [Dot], Dot);
    assert Count([Dot], Dot) == 1;
  }

  /**
    Changing the payload (keeping it free of separators) is caught unless MD5 maps the
    forged payload to the same digest: tamper evidence is exactly collision resistance.
   */
  lemma TamperedPayloadRejected(pi: PathInfo, md5: Md5, forged: GoString)
    requires Dot !in forged
    requires md5(forged) != md5(Payload(pi))
    ensures NewPathInfoFromBase64(forged + [Dot] + Md5OfBytes(md5, Payload(pi)), md5) == Err(Unverified)
  {
    Md5OfBytesEqual(md5, forged, Payload(pi));
    ChecksumCheckedFirst(forged, Md5OfBytes(md5, Payload(pi)), md5);
  }
}
