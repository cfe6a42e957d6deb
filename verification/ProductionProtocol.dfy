/** The typed requests and results of the helper, with the checks of their constructors. */
module ProductionProtocol {
  import opened Common
  import opened Json
  import Utf8

  const MAX_MODULES := 32
  const MAX_OUTPUT_BYTES := 65536
  const MAX_TEXT_BYTES := 512

  datatype Action = Audit | VerifyModule | ApplyModule | ApplyModules | RollbackBackup

  datatype ProductionStatus = Succeeded | Failed | Denied | Cancelled | TimedOut | Rejected

  datatype ProductionRequest = ProductionRequest(
    protocolVersion: int,
    requestId: string,
    action: Action,
    moduleIds: seq<string>,
    backupId: Option<string>)

  datatype ProductionCancel = ProductionCancel(protocolVersion: int, requestId: string)

  datatype ProductionCancelResponse = ProductionCancelResponse(protocolVersion: int, requestId: string, accepted: bool)

  datatype ErrorDetail = ErrorDetail(code: string, message: string)

  datatype ProductionResult = ProductionResult(
    protocolVersion: int,
    requestId: string,
    action: Action,
    status: ProductionStatus,
    startedAt: string,
    finishedAt: string,
    exitCode: Option<int>,
    summary: string,
    output: string,
    outputTruncated: bool,
    error: Option<ErrorDetail>,
    moduleIds: seq<string>,
    backupId: Option<string>,
    findingCount: Option<int>)

  // ----- the grammars -----

  predicate IsLower(c: char) {
    'a' <= c <= 'z'
  }

  predicate IsDecimal(c: char) {
    '0' <= c <= '9'
  }

  predicate IsIdentifierChar(c: char) {
    IsLower(c) || IsDecimal(c) || c == '_'
  }

  predicate AllIdentifierChars(s: string) {
    forall i :: 0 <= i < |s| ==> IsIdentifierChar(s[i])
  }

  /** `[a-z][a-z0-9_]{0,63}`, for module IDs and error codes. */
  predicate IsModuleId(s: string) {
    1 <= |s| <= 64 && IsLower(s[0]) && AllIdentifierChars(s)
  }

  predicate IsHex(c: char) {
    IsDecimal(c) || 'a' <= c <= 'f'
  }

  /** A lower-case UUID of version 1 to 5. */
  predicate IsRequestId(s: string) {
    && |s| == 36
    && (forall i :: 0 <= i < 36 ==> if i in {8, 13, 18, 23} then s[i] == '-' else IsHex(s[i]))
    && '1' <= s[14] <= '5' && s[19] in {'8', '9', 'a', 'b'}
  }

  predicate IsBackupChar(c: char) {
    IsLower(c) || 'A' <= c <= 'Z' || IsDecimal(c) || c in {'.', '_', '-'}
  }

  /** Up to 128 characters that begin with a letter or digit and never have two dots in a row. */
  predicate IsBackupId(s: string) {
    && 1 <= |s| <= 128
    && (forall i :: 0 <= i < |s| ==> IsBackupChar(s[i])) && s[0] !in {'.', '_', '-'}
    && (forall i :: 1 <= i < |s| ==> !(s[i - 1] == '.' && s[i] == '.'))
  }

  /** `YYYY-MM-DDTHH:MM:SS`, a fraction of one to six digits or none, and `Z`. */
  predicate IsTimestamp(s: string) {
    && (|s| == 20 || 22 <= |s| <= 27)
    && (forall i :: 0 <= i < 19 ==>
          if i in {4, 7} then s[i] == '-' else if i == 10 then s[i] == 'T' else if i in {13, 16} then s[i] == ':'
          else IsDecimal(s[i]))
    && (|s| > 20 ==> s[19] == '.' && forall i :: 20 <= i < |s| - 1 ==> IsDecimal(s[i]))
    && s[|s| - 1] == 'Z'
  }

  predicate IsBoundedText(s: string, maximum: nat) {
    '\0' !in s && |Utf8.Encode(s)| <= maximum
  }

  predicate AreModuleIds(ids: seq<string>) {
    (forall i :: 0 <= i < |ids| ==> IsModuleId(ids[i])) && Unrepeated(ids)
  }

  // ----- what the constructors accept -----

  predicate ValidRequest(r: ProductionRequest) {
    && r.protocolVersion == 1 && IsRequestId(r.requestId) && AreModuleIds(r.moduleIds)
    && match r.action
       case Audit => r.moduleIds == [] && r.backupId == None
       case VerifyModule => |r.moduleIds| == 1 && r.backupId == None
       case ApplyModule => |r.moduleIds| == 1 && r.backupId == None
       case ApplyModules => 1 <= |r.moduleIds| <= MAX_MODULES && r.backupId == None
       case RollbackBackup => r.moduleIds == [] && r.backupId.Some? && IsBackupId(r.backupId.value)
  }

  predicate ValidError(e: ErrorDetail) {
    IsModuleId(e.code) && IsBoundedText(e.message, MAX_TEXT_BYTES)
  }

  predicate ValidShape(r: ProductionResult) {
    match r.action
    case Audit => r.findingCount.Some? && 0 <= r.findingCount.value <= 10000 && r.moduleIds == [] && r.backupId == None
    case VerifyModule => |r.moduleIds| == 1 && r.backupId == None && r.findingCount == None
    case RollbackBackup =>
      && r.backupId.Some? && r.findingCount == None && (r.status == Succeeded ==> r.moduleIds != [])
      && IsBackupId(r.backupId.value)
    case _ => r.moduleIds != [] && r.findingCount == None && (r.backupId.Some? ==> IsBackupId(r.backupId.value))
  }

  predicate ValidResult(r: ProductionResult) {
    && r.protocolVersion == 1 && IsRequestId(r.requestId)
    && IsTimestamp(r.startedAt) && IsTimestamp(r.finishedAt)
    && (r.exitCode.Some? ==> 0 <= r.exitCode.value <= 255)
    && IsBoundedText(r.summary, MAX_TEXT_BYTES) && IsBoundedText(r.output, MAX_OUTPUT_BYTES)
    && (r.error.Some? ==> ValidError(r.error.value))
    && AreModuleIds(r.moduleIds) && |r.moduleIds| <= MAX_MODULES
    && ValidShape(r)
  }
}
