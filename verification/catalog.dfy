/** The converter's fixed data: the module-to-part lookup table `cz_elements`
    (app.py:9-44), the header texts it looks for, the gateway label and the
    two module names that are never reported as missing. */
module Catalog {

  /** Shared part lists: two spellings of one module point at the same list. */
  const TdiTransDataInt: seq<string> := [
    "CZ-0919800-100-666 - 3500/22-01-01-00 KMPL.",
    "CZ-1119520-000-705 - 3500/22 288055-01 PRZÓD"
  ]
  const RelayStandard4: seq<string> := ["CZ-0919800-100-663 - 3500/32-01-00"]
  const TachometerIntTerm: seq<string> := ["CZ-0919800-100-757 - 3500/50-01-00"]

  const RtdTempModule: string := "3500/60 RTD/TC Temp I/O (Int. Term.)"
  const RtdTempParts: seq<string> := [
    "CZ-0919800-100-705 - 3500/60-01-00 KMPL.",
    "CZ-0919800-100-765 - 163179-01 PRZÓD",
    "CZ-0919800-100-766 - 133843-01 TYŁ"
  ]

  const CzElements: map<string, seq<string>> := map[
    "3500/22M TDI- Transient Data Int" := TdiTransDataInt,
    "3500/22M TDI-Transient Data Int" := TdiTransDataInt,
    "3500/25 Keyphasor I/O Module (Int. Term.)" := ["CZ-0919800-100-704 - 3500/25-01-01 KMPL."],
    "3500/33 16 Channel Relay Module" := ["CZ-1119520-000-631 - 3500/33-01-01 KMPL."],
    "3500/32 Standard Relay Module" := RelayStandard4,
    "3500/32M Standard Relay Module" := RelayStandard4,
    "3500/34 TMR Relay Module" := ["CZ-0919800-100-706 - 3500/34-01-00 KMPL."],
    "3500/40M Proximitor I/O (Int. Term.)" := ["CZ-0919800-100-707 - 3500/40-01-00 KMPL."],
    "3500/42M Prox/Velom I/O (Int. Term.)" := ["CZ-0919800-100-709 - 3500/42-09-00"],
    "3500/42M Prox/Seismic I/O Module (Int. Term.)" := ["CZ-0919800-100-664 - 3500/42-01-00"],
    "3500/42M Prox/Seismic I/O Module (Ext. Term.)" := ["CZ-0919800-100-708 - 3500/42-02-00"],
    "3500/50M Tachometer I/O (Int. Term.)" := TachometerIntTerm,
    "3500/50 Tachometer I/O (Int. Term.)" := TachometerIntTerm,
    "3500/53 Overspeed Protection I/O (Int. Term.)" := ["CZ-0919800-100-710 - 3500/53-03-00 KMPL."],
    RtdTempModule := RtdTempParts,
    "3500/60 Isolated TC Temp I/O (Ext. Term.)" := ["CZ-0919800-100-714 - 3500/60-04-00"],
    "3500/62 PV Isolated 4-20 mA I/O (Int. Term.)" := ["CZ-1119520-000-689 - 136294-01"],
    "3500/65 16 Channel Temperature I/O (Int. Term.)" := ["CZ-1119520-000-633 - 3500/65-01-00"],
    "3500/70M Prox/Velom I/O (Int. Term.)" := ["CZ-0919800-100-715 - 3500/70-MM-00 (opis z SAP)"],
    "3500/72M Prox/Velom I/O (Int. Term.)" := ["CZ-0919800-100-716 - 3500/72-01-00"],
    "3500/77M Cylinder Pressure I/O (Int. Term.)" := ["CZ-0919800-100-717 - 3500/77-03-00"],
    "3500/92 Communication Gateway RS-485" := ["CZ-0919800-100-711 - 3500/92-02-01-00 - RS485"],
    "3500/92 Communication Gateway Ethernet" := ["CZ-0919800-100-718 - 3500/92-04-01-00 - ETH/RS485"]
  ]

  /** The module-type column header: two words on two printed lines (app.py:77). */
  const ModuleHeader: string := "Module\nType"
  const ChannelHeader: string := "Channel Type"

  /** The generic label shared by all communication gateways (app.py:94). */
  const GatewayLabel: string := "3500/92 Communication Gateway"

  const BlankSlot: string := "3500 Blank Slot"
  const PowerSupply: string := "3500/15 Power Supply"

  /** Names that are not reported when they have no parts (app.py:113). */
  const Sentinels: set<string> := {BlankSlot, PowerSupply}
}
