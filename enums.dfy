/** The enumerations a QSO record refers to. `Name()` is Java's
    `Enum.name()`, the text stored in the database and written to exports. */
module Enums {

  /** ADIF core modes, in declaration order. */
  datatype AdifMode = CW | SSB | AM | FM | RTTY | PSK | MFSK | DATA {
    function Name(): string {
      match this
      case CW => "CW"
      case SSB => "SSB"
      case AM => "AM"
      case FM => "FM"
      case RTTY => "RTTY"
      case PSK => "PSK"
      case MFSK => "MFSK"
      case DATA => "DATA"
    }
  }

  /** ADIF submodes: four core ones and six extras. */
  datatype AdifSubmode = FT8 | FT4 | JS8 | PSK31 | JT65 | JT9 | OLIVIA | CONTESTIA | PSK63 | PSK125 {
    function Name(): string {
      match this
      case FT8 => "FT8"
      case FT4 => "FT4"
      case JS8 => "JS8"
      case PSK31 => "PSK31"
      case JT65 => "JT65"
      case JT9 => "JT9"
      case OLIVIA => "OLIVIA"
      case CONTESTIA => "CONTESTIA"
      case PSK63 => "PSK63"
      case PSK125 => "PSK125"
    }
  }

  /** Paper QSL card status. */
  datatype QslStatus = NONE | SENT | CONFIRMED {
    function Name(): string {
      match this
      case NONE => "NONE"
      case SENT => "SENT"
      case CONFIRMED => "CONFIRMED"
    }
  }

  /** Logbook of The World confirmation status. */
  datatype LotwStatus = UNKNOWN | SENT | CONFIRMED {
    function Name(): string {
      match this
      case UNKNOWN => "UNKNOWN"
      case SENT => "SENT"
      case CONFIRMED => "CONFIRMED"
    }
  }

  /** eQSL electronic confirmation status. */
  datatype EqslStatus = UNKNOWN | SENT | CONFIRMED {
    function Name(): string {
      match this
      case UNKNOWN => "UNKNOWN"
      case SENT => "SENT"
      case CONFIRMED => "CONFIRMED"
    }
  }

  /** Mode names identify modes, so comparing the stored text (as the
      duplicate query does) is comparing the modes. */
  lemma ModeNameInjective(a: AdifMode, b: AdifMode)
    ensures a.Name() == b.Name() <==> a == b
  {
  }

  lemma SubmodeNameInjective(a: AdifSubmode, b: AdifSubmode)
    ensures a.Name() == b.Name() <==> a == b
  {
  }
}
