/** The bot kinds, their names, and a mixing ratio per kind. */
module Bots {
  import opened Wrappers

  const U32_LIMIT: nat := 0x1_0000_0000
  const U64_LIMIT: nat := 0x1_0000_0000_0000_0000

  type u32 = x: nat | x < U32_LIMIT

  datatype BotType = Normal | Fickle | Spammer | Ghost | Quitter

  datatype Entry = Entry(kind: BotType, ratio: u32)

  /** The default mix of kinds. */
  const DEFAULT_SPEC: seq<Entry> :=
    [Entry(Normal, 40), Entry(Spammer, 20), Entry(Fickle, 20), Entry(Ghost, 10), Entry(Quitter, 10)]

  function AsStr(kind: BotType): string {
    match kind
    case Normal => "normal"
    case Fickle => "fickle"
    case Spammer => "spammer"
    case Ghost => "ghost"
    case Quitter => "quitter"
  }

  function FromStr(s: string): Option<BotType> {
    match s
    case "normal" => Some(Normal)
    case "fickle" => Some(Fickle)
    case "spammer" => Some(Spammer)
    case "ghost" => Some(Ghost)
    case "quitter" => Some(Quitter)
    case _ => None
  }
}
