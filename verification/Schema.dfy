/** The memory objects: entities, events, claims, and the extractor output that carries them. */
module Schema {
  import opened Basics
  import opened Permissions

  type Id = string

  datatype Status = Active | Superseded | Contradicted | Reconciled

  datatype Fulfillment = Open | Fulfilled | Dropped

  datatype SourceRef = SourceRef(
    connector: string, externalId: string, url: Option<string>, occurredAt: int, ingestedAt: int)

  datatype Citation = Citation(eventId: Id, source: SourceRef, quote: Option<string>)

  datatype SealRef = SealRef(keyId: string, scheme: string, blobId: Option<string>, byteLen: nat)

  datatype Entity = Entity(
    id: Id, owner: string, kind: EntityKind, name: string, aliases: seq<string>,
    firstSeen: int, lastSeen: int, citations: seq<Citation>, acl: ObjectAcl)

  datatype Event = Event(
    id: Id, owner: string, summary: string, body: Option<string>, entityIds: seq<Id>,
    source: SourceRef, encrypted: Option<SealRef>, citations: seq<Citation>, acl: ObjectAcl)

  datatype Commitment = Commitment(
    owedBy: Id, owedTo: Option<Id>, dueAt: Option<int>, fulfillment: Fulfillment, settledAt: Option<int>)

  datatype Claim = Claim(
    id: Id, owner: string, statement: string, subjects: seq<Id>, status: Status,
    supersedes: seq<Id>, contradicts: seq<Id>, reconciledInto: Option<Id>,
    commitment: Option<Commitment>, assertedAt: int, citations: seq<Citation>, acl: ObjectAcl)

  datatype Label = EntityLabel | EventLabel | ClaimLabel

  datatype Node = EntityNode(entity: Entity) | EventNode(event: Event) | ClaimNode(claim: Claim) {
    function Id(): Id {
      match this
      case EntityNode(e) => e.id
      case EventNode(e) => e.id
      case ClaimNode(c) => c.id
    }

    function Label(): Label {
      match this
      case EntityNode(_) => EntityLabel
      case EventNode(_) => EventLabel
      case ClaimNode(_) => ClaimLabel
    }

    function Owner(): string {
      match this
      case EntityNode(e) => e.owner
      case EventNode(e) => e.owner
      case ClaimNode(c) => c.owner
    }

    function Acl(): ObjectAcl {
      match this
      case EntityNode(e) => e.acl
      case EventNode(e) => e.acl
      case ClaimNode(c) => c.acl
    }

    function OccurredAt(): int {
      match this
      case EntityNode(e) => e.lastSeen
      case EventNode(e) => e.source.occurredAt
      case ClaimNode(c) => c.assertedAt
    }

    /** Ids are `<prefix>_<digest>`, so an id tells which label its node carries. */
    predicate LabelMatchesId() {
      match this
      case EntityNode(e) => "ent_" <= e.id
      case EventNode(e) => "evt_" <= e.id
      case ClaimNode(c) => "clm_" <= c.id
    }
  }

  /** One unit of raw source activity; only what sealing looks at. */
  datatype RawRecord = RawRecord(externalId: string, sensitive: bool)

  /** Extractor output for one record. */
  datatype Candidate = Candidate(entities: seq<Entity>, events: seq<Event>, claims: seq<Claim>)
}
