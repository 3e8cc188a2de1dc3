/** The entries of the audit log. */
module AuditEntries {
  import opened Status

  datatype AuditEntry = AuditEntry(
    actor: string, requestId: string, action: string, entityType: string, entityId: nat,
    before: string, after: string, detail: string)

  function TypeName(e: Entity): string {
    match e
    case Bridge => "BridgeAsset"
    case Inspection => "InspectionRound"
    case Defect => "DefectFinding"
    case Priority => "PriorityDecision"
  }

  /** The entity's display name, as it appears in audit details. */
  function Title(e: Entity): string {
    match e
    case Bridge => "桥梁资产"
    case Inspection => "检查批次"
    case Defect => "缺陷发现"
    case Priority => "优先级决定"
  }

  function OrElse(text: string, default: string): string {
    if text == "" then default else text
  }

  /** An entry as it is stored: an empty actor or request id is replaced. */
  function NewAudit(actor: string, requestId: string, action: string, entityType: string, entityId: nat,
                    before: string, after: string, detail: string): AuditEntry {
    AuditEntry(OrElse(actor, "system"), OrElse(requestId, "untracked"),
               action, entityType, entityId, before, after, detail)
  }
}
