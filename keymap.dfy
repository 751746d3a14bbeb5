/** The shapes of types.ts that the command layers exchange: key mappings, Ex
    command table entries and modes, and the ordered key map that user mappings
    are prepended to. */
module KeyMaps {
  import opened Common

  datatype Context = Insert | Normal | Visual

  /** The `type` tag of a key mapping. */
  datatype MappingType = KeyToKey | Idle | KeyToEx | Motion | Action | Operator | OperatorMotion | Search | Ex

  /** `type.startsWith("ex")` */
  predicate IsExType(t: MappingType) { t == Ex }

  /** `type.startsWith("key")` */
  predicate IsKeyType(t: MappingType) { t == KeyToKey || t == KeyToEx }

  /** A key map entry. `payload` stands for the kind-specific name and arguments
      (motion, action, operator, search or Ex payloads), which this model carries
      and copies but never inspects. */
  datatype KeyMapping = KeyMapping(
    keys: string,
    kind: MappingType,
    context: Option<Context>,
    toKeys: Option<string>,
    exInput: Option<string>,
    payload: string)

  /** The optional `type` of an Ex command entry. */
  datatype ExType = ExToEx | ExToKey | Api

  datatype ExCommand = ExCommand(
    name: string,
    kind: Option<ExType>,
    shortName: Option<string>,
    possiblyAsync: bool,
    excludeFromCommandHistory: bool,
    toKeys: Option<string>,
    toInput: Option<string>,
    user: bool)

  /** The shared key map `defaultKeymap`: user mappings sit in front of the
      `defaultLength` built-in entries it started with. */
  class Keymap {
    var entries: seq<KeyMapping>
    /** `defaultKeymapLength` */
    const defaultLength: nat

    constructor (defaults: seq<KeyMapping>)
      ensures entries == defaults && defaultLength == |defaults|
    {
      entries := defaults;
      defaultLength := |defaults|;
    }

    /** `_mapCommand(command)`: the mapping goes in front, ahead of every entry it may shadow. */
    method MapCommand(m: KeyMapping)
      modifies this`entries
      ensures entries == [m] + old(entries)
    {
      entries := [m] + entries;
    }
  }
}
