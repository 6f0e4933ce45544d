/** Participant roles and how they are stored in, and read back from,
    participant metadata. */
module Roles {
  import opened Common

  datatype Role = Driver | Bot | Human

  /** The string the source uses for each role. */
  function RoleName(r: Role): string {
    match r
    case Driver => "driver"
    case Bot => "bot"
    case Human => "human"
  }

  /** The JavaScript value found under `role` in parsed metadata: absent
      (`undefined`), a string, or some other JSON value (number, null, object). */
  datatype RoleValue = Undefined | Text(s: string) | NonText

  /** Participant metadata as the JSON parser sees it.
      NoMetadata: the field is undefined or the empty string (falsy).
      Unparsable: `JSON.parse` throws, or yields null/undefined so that reading
      `.role` throws.
      Parsed: parsing succeeded and `.role` gave `role`. */
  datatype Metadata = NoMetadata | Unparsable | Parsed(role: RoleValue)

  /** A platform participant as far as the core reads it. */
  datatype Participant = Participant(identity: string, metadata: Metadata)

  /** `JSON.stringify({ role })`, seen through the parser. */
  function MetadataOf(r: Role): Metadata {
    Parsed(Text(RoleName(r)))
  }

  /** The shared reading of metadata: start from "human"; if metadata is
      present and parses, take whatever `.role` holds; a parse error keeps
      "human". */
  function ReadRole(m: Metadata): RoleValue {
    match m
    case NoMetadata => Text("human")
    case Unparsable => Text("human")
    case Parsed(v) => v
  }

  /** The role a raw value names, if it names one. */
  function RoleNamed(v: RoleValue): Option<Role> {
    if v == Text("driver") then Some(Driver)
    else if v == Text("bot") then Some(Bot)
    else if v == Text("human") then Some(Human)
    else None
  }

  /** Missing or malformed metadata reads as the least-privileged role. */
  lemma MissingMetadataReadsHuman(m: Metadata)
    requires !m.Parsed?
    ensures RoleNamed(ReadRole(m)) == Some(Human)
  {
  }

  /** Storing a role and reading it back recovers the role. */
  lemma ReadRoleOfMetadataOf(r: Role)
    ensures ReadRole(MetadataOf(r)) == Text(RoleName(r))
    ensures RoleNamed(ReadRole(MetadataOf(r))) == Some(r)
  {
  }
}
