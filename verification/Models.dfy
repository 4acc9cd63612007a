/** The processor models that are told apart (Model in engine/crashdump.h). */
module Models {

  /** The zero value of the source's enumeration is ICX. */
  datatype Model = ICX | ICX2 | SPR | SPRHBM | ICXD

  /** Two generations: they keep their masks in different registers and their crash data has a
      different layout behind the core registers. */
  datatype Family = IceLake | SapphireRapids

  function FamilyOf(m: Model): Family {
    match m
    case ICX => IceLake
    case ICX2 => IceLake
    case ICXD => IceLake
    case SPR => SapphireRapids
    case SPRHBM => SapphireRapids
  }
}
