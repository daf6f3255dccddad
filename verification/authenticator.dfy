/**
 The one-time-password library the code routes call. Its algorithms
 (HOTP and TOTP) are not modelled: generation and verification are
 parameters of the handlers, and only the settings the handlers assign
 before each call are part of the model.
 */
module Authenticator {
  import opened Js

  /** `authenticator.options`: the time step in seconds, the number of steps
      of tolerance on either side, and the code length. A field left `None`
      keeps the library's default. */
  datatype Options = Options(step: Option<nat>, window: Option<nat>, digits: Option<nat>)

  /** `authenticator.generate(secret)` under the given settings, evaluated
      at an instant in milliseconds since the epoch; `None` when it throws. */
  type Generator = (Options, Json, nat) -> Option<string>

  /** `authenticator.verify({ token, secret })` under the given settings;
      `None` when it throws. The clock it reads is part of the oracle. */
  type Verifier = (Options, string, Json) -> Option<bool>
}
