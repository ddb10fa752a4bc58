/** CrosFpAuthStackManager, the manager that drives the fingerprint sensor: its state machine
    as functions. What the sensor, the templates store and the power button answer is part
    of the call. */
module CrosFpManager {
  import opened Options
  import opened AuthStackTypes

  datatype State =
    | KNone | KEnroll | KEnrollDone | KAuth | KAuthDone | KWaitForFingerUp | KAuthWaitForFingerUp | KLocked

  /** next_session_action_: what the next sensor event is handed to. */
  datatype Action = NoAction | EnrollImage | EnrollFingerUp | MatchFingerDown | FingerUp

  datatype EnrollResult =
    | EnrollOk | EnrollImmobile | EnrollLowCoverage | EnrollLowQuality | EnrollInternal | EnrollUnknown

  datatype MatchResult =
    | MatchYes | MatchYesUpdated | MatchYesUpdateFailed
    | MatchNo | MatchNoLowQuality | MatchNoLowCoverage | MatchNoTemplates | MatchNoInternal | MatchUnknown

  /** A sensor event with the fields that the EC_MKBP_FP_* macros pick out of its 32 bits. */
  datatype SensorEvent = SensorEvent(
    isEnroll: bool, isMatch: bool, isFingerUp: bool,
    enrollResult: EnrollResult, progress: nat, matchResult: MatchResult, matchIndex: nat)

  datatype AuthRequest = AuthRequest(user: string, gscNonce: string, labelSeed: string, iv: string)

  /** What the devices and stores answer during one call. */
  datatype Answers = Answers(
    templatesFull: bool, setNonce: bool, unlock: bool, setMode: bool,
    loadUser: bool, reset: bool, upload: bool,
    getTemplate: bool, getSecret: bool, createRecord: bool,
    hasRecord: bool, deleteRecord: bool,
    legacyRecord: bool, migrate: bool,
    powerButton: bool, metadata: bool)

  datatype Manager = Manager(
    state: State,
    action: Action,
    sensor: Action,     // what the sensor was last told to look for
    pendingRequest: Option<AuthRequest>,
    pendingMatch: Option<SensorEvent>,
    user: Option<string>,
    lockedToUser: bool,
    migrator: Option<string>,   // the user whose legacy records the migrator has loaded
    validFrom: nat)     // closures issued before this one have lost their weak pointer

  const INITIAL_MANAGER := Manager(KNone, NoAction, NoAction, None, None, None, false, None, 0)

  predicate IsActive(s: State)
  {
    s.KEnroll? || s.KAuth? || s.KWaitForFingerUp? || s.KAuthWaitForFingerUp?
  }

  /** CanStartEnroll and CanStartAuth list the same states. */
  predicate CanStart(s: State)
  {
    s.KNone? || s.KEnrollDone? || s.KAuthDone? || s.KWaitForFingerUp?
  }

  /** EndEnrollSession and EndAuthSession. */
  function KillMcuSession(m: Manager, issued: nat): Manager
  {
    m.(state := if IsActive(m.state) then KNone else m.state, action := NoAction, sensor := NoAction, validFrom := issued)
  }

  /** The Request* functions: choose the action, then set the sensor mode it needs. */
  function Request(m: Manager, action: Action, setMode: bool): Manager
  {
    if setMode then m.(action := action, sensor := action) else m.(action := NoAction)
  }

  // ---------- users ----------

  datatype Outcome = Outcome(m: Manager, ok: bool)

  /** ResetContext: the sensor is told to look for nothing, and that may fail. */
  function ResetContext(m: Manager, a: Answers): Manager
  {
    if a.reset then m.(sensor := NoAction) else m
  }

  function UploadCurrentUserTemplates(m: Manager, a: Answers): Outcome
  {
    var m1 := ResetContext(m, a);
    if a.upload then Outcome(m1, true) else Outcome(m1.(state := KLocked), false)
  }

  function LoadUser(m: Manager, user: string, lockToUser: bool, a: Answers): Outcome
  {
    if m.user == Some(user) then Outcome(m, true)
    else if m.user.Some? && m.lockedToUser then Outcome(m, false)
    else
      var m1 := m.(user := None, lockedToUser := lockToUser || m.lockedToUser);
      if !a.loadUser then Outcome(m1.(state := KLocked), false)
      else UploadCurrentUserTemplates(m1.(user := Some(user)), a)
  }

  /** Another user than the loaded one may be loaded. */
  predicate MayLoad(m: Manager, user: string)
  {
    m.user != Some(user) && (m.user.None? || !m.lockedToUser)
  }

  /** The loaded user is replaced by another one, with everything going well. */
  predicate Switches(m: Manager, user: string, a: Answers)
  {
    MayLoad(m, user) && a.loadUser && a.upload
  }

  function OnUserLoggedIn(m: Manager, user: string, a: Answers): Manager
  {
    LoadUser(m, user, true, a).m.(migrator := if m.migrator.None? then Some(user) else m.migrator)
  }

  function OnUserLoggedOut(m: Manager): Manager
  {
    m.(lockedToUser := false, migrator := None)
  }

  // ---------- sessions ----------

  /** StartEnrollSession up to and including RequestEnrollImage. */
  predicate EnrollReachesSensor(m: Manager, a: Answers)
  {
    CanStart(m.state) && m.user.Some? && !a.templatesFull && a.setNonce && a.unlock
  }

  function StartEnrollSession(m: Manager, a: Answers): Outcome
  {
    if !EnrollReachesSensor(m, a) then Outcome(m, false)
    else
      var m1 := Request(m, EnrollImage, a.setMode);
      if a.setMode then Outcome(m1.(state := KEnroll), true) else Outcome(m1, false)
  }

  /** PrepareStartAuthSession goes through. */
  predicate AuthReachesSensor(a: Answers)
  {
    a.setNonce && a.unlock && a.setMode
  }

  function PrepareStartAuthSession(m: Manager, a: Answers): Outcome
  {
    if !a.setNonce || !a.unlock then Outcome(m, false)
    else Outcome(Request(m, MatchFingerDown, a.setMode), a.setMode)
  }

  function StartAuthSession(m: Manager, req: AuthRequest, a: Answers): Outcome
  {
    if !CanStart(m.state) then Outcome(m, false)
    else
      var loaded := LoadUser(m, req.user, false, a);
      if !loaded.ok then loaded
      else if loaded.m.state.KWaitForFingerUp? then
        Outcome(loaded.m.(state := KAuthWaitForFingerUp, pendingRequest := Some(req)), true)
      else
        var prepared := PrepareStartAuthSession(loaded.m, a);
        if prepared.ok then Outcome(prepared.m.(state := KAuth), true) else prepared
  }

  // ---------- credentials ----------

  datatype CredentialReply =
    | IncorrectState | NoTemplate | NoSecret | CreateRecordFailed | NoTemplates | InternalError
    | NotExist | DeletionFailed
    | Scan(result: ScanResult)      // SUCCESS with a scan result and no secret
    | Success

  datatype Replied = Replied(m: Manager, reply: CredentialReply)

  function CreateCredential(m: Manager, a: Answers): Replied
  {
    if !m.state.KEnrollDone? || m.user.None? then Replied(m, IncorrectState)
    else if !a.getTemplate then Replied(m, NoTemplate)
    else if !a.getSecret then Replied(m, NoSecret)
    else if !a.createRecord then Replied(m, CreateRecordFailed)
    else Replied(m.(state := KNone), Success)
  }

  function MatchReply(ev: SensorEvent, a: Answers): CredentialReply
  {
    if a.powerButton then Scan(ScanPowerButtonPressed)
    else
      match ev.matchResult
      case MatchNoTemplates => NoTemplates
      case MatchNoInternal => InternalError
      case MatchNo => Scan(ScanNoMatch)
      case MatchNoLowQuality => Scan(ScanInsufficient)
      case MatchNoLowCoverage => Scan(ScanPartial)
      case MatchUnknown => InternalError
      case _ => if !a.metadata then NoTemplates else if !a.getSecret then NoSecret else Success
  }

  function AuthenticateCredential(m: Manager, a: Answers): Replied
  {
    if !m.state.KAuthDone? then Replied(m, IncorrectState)
    else if m.pendingMatch.None? then Replied(m, IncorrectState)
    else
      var m1 := Request(m.(pendingMatch := None), FingerUp, a.setMode);
      Replied(m1.(state := if a.setMode then KWaitForFingerUp else KNone), MatchReply(m.pendingMatch.value, a))
  }

  function DeleteCredential(m: Manager, user: string, a: Answers): Replied
  {
    if m.user != Some(user) then Replied(m, if a.deleteRecord then Success else DeletionFailed)
    else if !a.hasRecord then Replied(m, NotExist)
    else if !a.deleteRecord then Replied(m, DeletionFailed)
    else Replied(UploadCurrentUserTemplates(m, a).m, Success)
  }

  /** A template of the migrator's user gets past every check and into the sensor. */
  predicate MigrationPasses(m: Manager, a: Answers)
  {
    && CanStart(m.state) && m.migrator.Some? && !a.templatesFull && a.legacyRecord
    && a.setNonce && a.unlock && a.migrate
  }

  function EnrollLegacyTemplate(m: Manager, a: Answers): Outcome
  {
    if MigrationPasses(m, a) then Outcome(m.(state := KEnrollDone), true) else Outcome(m, false)
  }

  // ---------- sensor results ----------

  function ScanResultOf(r: EnrollResult): Option<ScanResult>
  {
    match r
    case EnrollOk => Some(ScanSuccess)
    case EnrollImmobile => Some(ScanImmobile)
    case EnrollLowCoverage => Some(ScanPartial)
    case EnrollLowQuality => Some(ScanInsufficient)
    case _ => None
  }
}
