/** The relay's admission hooks: `RejectEvent` for Nostr events and
    `RejectUpload` for Blossom uploads. Both admit exactly the team, which
    is the set of public keys listed as values of the `names` map of the
    team domain's `.well-known/nostr.json`. */
module Admission {

  /** `NostrData.Names`: a team member's name mapped to their public key. */
  type Names = map<string, string>

  /** Largest upload accepted, in bytes (200 MiB). */
  const MaxUploadSize: int := 200 * 1024 * 1024

  const NotInTeamMessage := "you're not part of the team"
  const TooLargeMessage := "file size exceeds 200MB limit"

  const PayloadTooLarge := 413
  const Forbidden := 403

  /** A public key belongs to the team when some name maps to it. */
  ghost predicate InTeam(names: Names, pubkey: string)
  {
    exists name :: name in names && names[name] == pubkey
  }

  /** The `for _, pubkey := range data.Names` scan. Go visits a map in no
      fixed order, so each step takes an arbitrary unvisited key. */
  method ScanTeam(names: Names, pubkey: string) returns (found: bool)
    ensures found <==> InTeam(names, pubkey)
  {
    var unvisited := names.Keys;
    while unvisited != {}
      invariant unvisited <= names.Keys
      invariant forall name :: name in names && name !in unvisited ==> names[name] != pubkey
      decreases |unvisited|
    {
      var name :| name in unvisited;
      if names[name] == pubkey {
        return true;
      }
      unvisited := unvisited - {name};
    }
    return false;
  }

  /** The `RejectEvent` hook: an event is stored only when its author is on
      the team. */
  method RejectEvent(names: Names, eventPubkey: string) returns (reject: bool, msg: string)
    ensures !reject <==> InTeam(names, eventPubkey)
    ensures !reject ==> msg == ""
    ensures reject ==> msg == NotInTeamMessage
  {
    var member := ScanTeam(names, eventPubkey);
    if member {
      return false, "";
    }
    return true, NotInTeamMessage;
  }

  /** The `RejectUpload` hook. The size cap is checked first, so it applies
      to team members too; a size equal to the cap passes it. An accepted
      upload echoes the extension and the size, as the hook's three results
      are `(reject, ext, size)` on that path. */
  method RejectUpload(names: Names, eventPubkey: string, size: int, ext: string)
    returns (reject: bool, msg: string, code: int)
    ensures size > MaxUploadSize ==> reject && msg == TooLargeMessage && code == PayloadTooLarge
    ensures size <= MaxUploadSize ==> (!reject <==> InTeam(names, eventPubkey))
    ensures !reject ==> msg == ext && code == size
    ensures reject && size <= MaxUploadSize ==> msg == NotInTeamMessage && code == Forbidden
  {
    if size > MaxUploadSize {
      return true, TooLargeMessage, PayloadTooLarge;
    }
    var member := ScanTeam(names, eventPubkey);
    if member {
      return false, ext, size;
    }
    return true, NotInTeamMessage, Forbidden;
  }
}
