/**
  Response codes, strictness thresholds and the (entity type, band) table of
  app/core/codes.py and app/core/policies.py.
 */
module Policies {
  datatype Verdict = Pass | Warn | Block | Error

  /** The codes the verdict pipeline can produce; an attachment failure carries its own REQ code. */
  datatype Code =
    | OK_0000 | WARN_1010
    | BLOCK_2001 | BLOCK_2002 | BLOCK_2003 | BLOCK_2005 | BLOCK_2006 | BLOCK_2007
    | BLOCK_2008 | BLOCK_2010 | BLOCK_2099
    | REQ(number: nat)

  function VerdictOf(c: Code): Verdict {
    match c
    case OK_0000 => Verdict.Pass
    case WARN_1010 => Verdict.Warn
    case REQ(_) => Verdict.Error
    case _ => Verdict.Block
  }

  predicate IsBlock(c: Code) { VerdictOf(c) == Verdict.Block }

  datatype Strictness = Low | Medium | High

  function Threshold(s: Strictness): real {
    match s
    case Low => 0.65
    case Medium => 0.78
    case High => 0.88
  }

  predicate InBlockBand(score: real, s: Strictness) { score >= Threshold(s) }

  /** ENTITY_TO_CODE for the block band; an unlisted entity type falls back to BLOCK-2099. */
  function TableCode(entity: string): Code {
    if entity == "KR_RRN" then BLOCK_2001
    else if entity == "KR_DRIVERLICENSE" then BLOCK_2002
    else if entity == "KR_PASSPORT" then BLOCK_2003
    else if entity == "CREDIT_CARD" then BLOCK_2005
    else if entity == "KR_BANK_ACCOUNT" then BLOCK_2006
    else if entity == "INTERNAL_NAME" then BLOCK_2007
    else BLOCK_2099
  }

  predicate IsAttachmentField(field: string) { "attachment" <= field }

  function MapDetectionToCode(entity: string, score: real, field: string, s: Strictness): Code {
    if IsAttachmentField(field) then
      if InBlockBand(score, s) then BLOCK_2010 else OK_0000
    else if !InBlockBand(score, s) then OK_0000
    else TableCode(entity)
  }
}
