/** Vocabulary shared by the models of biod's AuthStack D-Bus wrapper and of the
    fingerprint manager behind it. */
module AuthStackTypes {
  import opened Options

  /** The wrapper keeps one slot per session kind. */
  datatype SlotKind = EnrollSlot | AuthSlot

  /** Every session closure a manager hands out is identified by its issue number. */
  type Token = nat

  datatype ScanResult =
    | ScanSuccess | ScanPartial | ScanInsufficient | ScanImmobile | ScanNoMatch | ScanPowerButtonPressed

  /** D-Bus methods and observer callbacks that the wrapper hands straight to the manager. */
  datatype ForwardedCall =
    | NonceCall | CreateCall | AuthenticateCall | DeleteCall
    | ListLegacyCall | EnrollLegacyCall | LoginNotice | LogoutNotice

  /** Everything the wrapper does that somebody else can observe: the clients on the bus
      (objects, signals, replies) or the manager (session closures). */
  datatype Output =
    | Register(slot: SlotKind)
    | Unregister(slot: SlotKind)
    | EnrollScanDone(result: ScanResult, done: bool, percent: Option<int>)
    | AuthScanDone
    | SessionFailed
    | SessionPath(slot: SlotKind)                // successful reply to a Start call
    | StartError(slot: SlotKind)                 // "Failed to start ..." reply
    | EndOk(slot: SlotKind)                      // successful reply to Cancel or End
    | EndError(slot: SlotKind)                   // "... object was null" reply
    | Started(slot: SlotKind, token: Token)      // the manager answered a Start call with this closure
    | RunEnd(slot: SlotKind, token: Token)       // the closure was run
    | Released(slot: SlotKind, token: Token)     // the closure was given up without running it
    | Forwarded(call: ForwardedCall)
    | ManagerFreed                               // the wrapper, being destroyed, frees its manager

  /** What clients on the bus can see: objects, signals and replies, and calls handed on, which
      the manager replies to. */
  predicate Visible(o: Output)
  {
    !o.Started? && !o.RunEnd? && !o.Released? && !o.ManagerFreed?
  }

  function VisiblePart(log: seq<Output>): (r: seq<Output>)
  {
    if log == [] then []
    else VisiblePart(log[..|log| - 1]) + (if Visible(log[|log| - 1]) then [log[|log| - 1]] else [])
  }
}
