/**
 * The advertisement filter of the central client: a walk over the
 * Advertising Data structures of a scan report (each laid out as
 * `[length][AD type][payload]`, Bluetooth Core Specification, Volume 3,
 * Part C, Section 11) looking for a list of 16-bit Service UUIDs (AD types
 * 0x02 and 0x03, Core Specification Supplement, Part A, Section 1.1) whose
 * first UUID is Environmental Sensing, 0x181A, stored little-endian.
 *
 * `data` is the report's payload with `|data|` equal to its declared length.
 * Unlike the source, every read is bounds-checked: a structure whose type byte
 * lies past the end ends the walk, and a structure too short to hold a UUID
 * does not match.
 */
module Advertising {
  import opened Bytes

  const AD_TYPE_UUID16_INCOMPLETE: u8 := 0x02
  const AD_TYPE_UUID16_COMPLETE: u8 := 0x03
  /** Environmental Sensing service UUID as it appears on air, low byte first. */
  const ENVSENS_SERVICE: seq<u8> := [0x1A, 0x18]

  predicate IsUuid16List(adType: u8) {
    adType == AD_TYPE_UUID16_INCOMPLETE || adType == AD_TYPE_UUID16_COMPLETE
  }

  /** The AD structure starting at `i` lists 16-bit service UUIDs and the first is 0x181A. */
  predicate MatchesAt(data: seq<u8>, i: nat) {
    i + 3 < |data| && IsUuid16List(data[i + 1]) && data[i + 2 .. i + 4] == ENVSENS_SERVICE
  }

  /** Where the walk goes after the structure at `i`: past its length byte and `length` bytes. */
  function NextCursor(data: seq<u8>, i: nat): (j: nat)
    requires i < |data|
    ensures j > i
  {
    i + data[i] + 1
  }

  /** The walk from cursor `i` meets a matching structure. */
  function AdvertisesFrom(data: seq<u8>, i: nat): bool
    decreases |data| - i
  {
    if i + 1 >= |data| then false
    else MatchesAt(data, i) || AdvertisesFrom(data, NextCursor(data, i))
  }

  predicate Advertises(data: seq<u8>) {
    AdvertisesFrom(data, 0)
  }

  /** The start offsets of the AD structures the walk from `i` visits, in order. */
  function Visited(data: seq<u8>, i: nat): (v: seq<nat>)
    decreases |data| - i
  {
    if i + 1 >= |data| then [] else [i] + Visited(data, NextCursor(data, i))
  }

  /**
   * The visited offsets are the chain that starts at `i` while it lies
   * inside the payload and steps from each structure to the next.
   */
  lemma {:induction false} VisitedIsTheWalk(data: seq<u8>, i: nat)
    ensures |Visited(data, i)| > 0 <==> i + 1 < |data|
    ensures |Visited(data, i)| > 0 ==> Visited(data, i)[0] == i
    ensures forall k :: 0 <= k < |Visited(data, i)| ==>
              i <= Visited(data, i)[k] && Visited(data, i)[k] + 1 < |data|
    ensures forall k :: 0 <= k < |Visited(data, i)| - 1 ==>
              Visited(data, i)[k + 1] == NextCursor(data, Visited(data, i)[k])
    ensures |Visited(data, i)| > 0 ==>
              NextCursor(data, Visited(data, i)[|Visited(data, i)| - 1]) + 1 >= |data|
    decreases |data| - i
  {
    if i + 1 < |data| {
      var j := NextCursor(data, i);
      VisitedIsTheWalk(data, j);
      var rest := Visited(data, j);
      assert Visited(data, i) == [i] + rest;
      forall k | 0 <= k < |Visited(data, i)|
        ensures i <= Visited(data, i)[k] && Visited(data, i)[k] + 1 < |data|
      {
        if k > 0 {
          assert Visited(data, i)[k] == rest[k - 1];
        }
      }
      forall k | 0 <= k < |Visited(data, i)| - 1
        ensures Visited(data, i)[k + 1] == NextCursor(data, Visited(data, i)[k])
      {
        if k > 0 {
          assert Visited(data, i)[k] == rest[k - 1];
        }
      }
    }
  }

  /** The filter finds the service exactly when one of the visited structures matches. */
  lemma {:induction false} AdvertisesIffVisitedMatch(data: seq<u8>, i: nat)
    ensures AdvertisesFrom(data, i) <==>
              exists k :: 0 <= k < |Visited(data, i)| && MatchesAt(data, Visited(data, i)[k])
    decreases |data| - i
  {
    if i + 1 < |data| {
      var j := NextCursor(data, i);
      AdvertisesIffVisitedMatch(data, j);
      var v, w := Visited(data, i), Visited(data, j);
      assert v == [i] + w;
      assert AdvertisesFrom(data, i) == (MatchesAt(data, i) || AdvertisesFrom(data, j));
      if AdvertisesFrom(data, i) {
        if MatchesAt(data, i) {
          assert v[0] == i && MatchesAt(data, v[0]);
          assert 0 < |Visited(data, i)| && MatchesAt(data, Visited(data, i)[0]);
        } else {
          var k :| 0 <= k < |w| && MatchesAt(data, w[k]);
          assert v[k + 1] == w[k] && MatchesAt(data, v[k + 1]);
          assert k + 1 < |Visited(data, i)| && MatchesAt(data, Visited(data, i)[k + 1]);
        }
      } else {
        forall k | 0 <= k < |v|
          ensures !MatchesAt(data, v[k])
        {
          if k == 0 {
            assert v[0] == i && !MatchesAt(data, i);
          } else {
            assert v[k] == w[k - 1] && !MatchesAt(data, w[k - 1]);
          }
        }
      }
    }
  }

  /**
   * find_service_in_advertisement with bounds checks: the same cursor walk,
   * returning as soon as a structure matches.
   */
  method FindServiceInAdvertisement(data: seq<u8>) returns (found: bool)
    ensures found == Advertises(data)
  {
    var i: nat := 0;
    while i < |data|
      invariant AdvertisesFrom(data, i) == Advertises(data)
      decreases |data| - i
    {
      if i + 1 >= |data| {
        return false;
      }
      var adFieldLength := data[i];
      var adFieldType := data[i + 1];
      if adFieldType == AD_TYPE_UUID16_INCOMPLETE || adFieldType == AD_TYPE_UUID16_COMPLETE {
        if i + 3 < |data| && data[i + 2] == ENVSENS_SERVICE[0] && data[i + 3] == ENVSENS_SERVICE[1] {
          return true;
        }
      }
      i := i + adFieldLength + 1;
    }
    return false;
  }

  /** A lone complete list holding just 0x181A is found. */
  lemma SingleServiceListIsFound()
    ensures Advertises([0x03, 0x03, 0x1A, 0x18])
  {
    assert MatchesAt([0x03, 0x03, 0x1A, 0x18], 0);
  }

  /** Only the first UUID of a list is compared: 0x181A in second place is missed. */
  lemma SecondUuidIsMissed()
    ensures !Advertises([0x05, 0x03, 0x0F, 0x18, 0x1A, 0x18])
  {
    var d: seq<u8> := [0x05, 0x03, 0x0F, 0x18, 0x1A, 0x18];
    assert d[2..4] == [0x0F, 0x18];
    assert NextCursor(d, 0) == 6;
  }

  // ---------------------------------------------------------------------------
  // The cursor as written: a `uint8_t` that wraps modulo 256.

  /** The source's cursor update `i = i + ad_field_length + 1` on a `uint8_t`. */
  function WrappedNextCursor(data: seq<u8>, i: u8): (j: u8)
    requires i < |data|
  {
    (i + data[i] + 1) % 0x100
  }

  /** The two cursors agree until the unwrapped one passes 255. */
  lemma {:induction false} WrappedCursorAgreesBelow256(data: seq<u8>, i: u8)
    requires i < |data|
    ensures NextCursor(data, i) < 0x100 <==> WrappedNextCursor(data, i) == NextCursor(data, i)
  {
  }

  /**
   * A first structure of length 0xFF whose type is not a UUID list sends the
   * wrapped cursor back to 0, so the source's loop never ends, whereas the
   * bounds-checked walk leaves the payload (at most 255 bytes) and reports
   * no service.
   */
  lemma {:induction false} WrappedCursorStalls(data: seq<u8>)
    requires 2 <= |data| <= 0xFF
    requires data[0] == 0xFF && !IsUuid16List(data[1])
    ensures WrappedNextCursor(data, 0) == 0
    ensures NextCursor(data, 0) >= |data| && !Advertises(data)
  {
    assert !MatchesAt(data, 0);
    assert !AdvertisesFrom(data, NextCursor(data, 0));
  }

  lemma WrappedCursorStallsExample()
    ensures WrappedNextCursor([0xFF, 0x00], 0) == 0
  {
    WrappedCursorStalls([0xFF, 0x00]);
  }
}
