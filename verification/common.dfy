/** Shared vocabulary of the voice gateway model: optional values, the outcome
    of a call into the media platform, and the call-to-room naming rule. */
module Common {

  datatype Option<+T> = None | Some(value: T)

  /** How a call into the media platform ended: it returned a value, or it
      threw (the promise was rejected). */
  datatype Reply<+T> = Returned(value: T) | Threw

  /** JavaScript's `s.startsWith(p)`. */
  predicate HasPrefix(s: string, p: string) {
    |p| <= |s| && s[..|p|] == p
  }

  const RoomPrefix: string := "call_"

  /** The platform room that carries call `callId`: `call_${callId}`. */
  function RoomName(callId: string): string {
    RoomPrefix + callId
  }

  /** Reads the call id back out of a room name; the partner of RoomName. */
  function CallIdOf(roomName: string): Option<string> {
    if HasPrefix(roomName, RoomPrefix) then Some(roomName[|RoomPrefix|..]) else None
  }

  /** Two registries keyed by call id agree on every key but `key`. */
  ghost predicate SameElsewhere<V>(a: map<string, V>, b: map<string, V>, key: string) {
    forall k :: k != key ==> (k in a <==> k in b) && (k in a ==> a[k] == b[k])
  }

  /** Every room name carries the prefix and the call id, so the call id can be
      recovered from the room name. */
  lemma CallIdOfRoomName(callId: string)
    ensures HasPrefix(RoomName(callId), RoomPrefix)
    ensures CallIdOf(RoomName(callId)) == Some(callId)
  {
  }

  /** Distinct calls never share a room. */
  lemma RoomNameInjective(a: string, b: string)
    ensures RoomName(a) == RoomName(b) <==> a == b
  {
    if RoomName(a) == RoomName(b) {
      CallIdOfRoomName(a);
      CallIdOfRoomName(b);
    }
  }
}
