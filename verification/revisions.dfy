/** The three places where src/index.ts departs from what it evidently
    intends (the empty parse at line 58, the `+` release at line 145 and the
    suffix match at line 269) are modelled both ways; a keyboard follows one
    reading throughout. */
module Revisions {
  /** `AsWritten` follows the source line by line; `Corrected` follows the
      evidently intended behaviour at those three places. */
  datatype Revision = AsWritten | Corrected
}
