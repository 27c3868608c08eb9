/** The pipeline's glue as it runs: the entity registry, the alert writer and the detection sink. */
module PipelineService {
  import opened Wrappers
  import opened Correlator
  import opened CorrelatorStore
  import opened CorrelatorRuns
  import opened CorrelatorService
  import opened AlertRows
  import opened AlertStore
  import opened AlertStoreService
  import AlertStream
  import opened AlertStreamService
  import opened Pipeline
  import opened Text

  class EntityRegistry {
    var ids: Registry

    constructor ()
      ensures ids == map[]
    {
      ids := map[];
    }

    method Id(kind: string, value: string) returns (id: nat)
      modifies this
      ensures (id, ids) == IdFor(old(ids), kind, value)
    {
      if (kind, value) !in ids {
        ids := ids[(kind, value) := |ids| + 1];
      }
      id := ids[(kind, value)];
    }
  }

  class AlertWriter {
    const alerts: InMemoryAlertStore
    const hub: AlertHub

    constructor (alerts: InMemoryAlertStore, hub: AlertHub)
      ensures this.alerts == alerts && this.hub == hub
    {
      this.alerts, this.hub := alerts, hub;
    }

    /** Store one outcome's case and announce the row; a duplicate stores nothing. */
    method Accept(action: Action, after: Case, now: int) returns (row: Option<AlertRow>)
      requires alerts.Distinct() && hub.Valid()
      modifies alerts, alerts.rows, hub`buffer, hub`next, hub.subs
      ensures alerts.Distinct() && hub.Valid()
      ensures action == Duplicate ==> row.None? && alerts.State() == old(alerts.State()) && hub.State() == old(hub.State())
      ensures action != Duplicate ==>
                && row.Some?
                && (alerts.State(), row.value) == SaveRow(old(alerts.State()), after.id, EncodeCase(after), now)
                && hub.State() == AlertStream.Append(old(hub.State()), row.value)
      ensures hub.subs == old(hub.subs)
      ensures forall s :: s in hub.subs ==>
                s.State() == if action == Duplicate then old(s.State())
                             else AlertStream.Deliver(old(s.State()), AlertStream.Notification(old(hub.next), row.value))
    {
      if action == Duplicate {
        return None;
      }
      var record := alerts.Save(after.id, EncodeCase(after), now);
      row := Some(record.Value());
      var _ := hub.Publish(record.Value());
    }
  }

  class DetectionSink {
    const correlator: CorrelatorObject
    const registry: EntityRegistry
    const writer: AlertWriter
    const context: Context

    constructor (correlator: CorrelatorObject, registry: EntityRegistry, writer: AlertWriter, context: Context)
      requires correlator.policy == context.policy
      ensures this.correlator == correlator && this.registry == registry
      ensures this.writer == writer && this.context == context
    {
      this.correlator, this.registry, this.writer, this.context := correlator, registry, writer, context;
    }

    ghost predicate Valid()
      reads correlator.store, writer.alerts, writer.hub
    {
      && correlator.policy == context.policy
      && Sound(correlator.store.State())
      && writer.alerts.Distinct() && writer.hub.Valid()
    }

    /** The state of every part, with no observer's notes. */
    function Snapshot(): Path
      reads registry, correlator.store, writer.alerts, writer.alerts.rows, writer.hub
    {
      Path(registry.ids, correlator.store.State(), writer.alerts.State(), writer.hub.State(), [], [])
    }

    /** One scored window, and at most one announcement, which every subscriber is handed. */
    method Accept(w: Window, now: int) returns (refused: Option<string>)
      requires Valid()
      modifies registry, correlator.store, writer.alerts, writer.alerts.rows
      modifies writer.hub`buffer, writer.hub`next, writer.hub.subs
      ensures Valid()
      ensures var (path', e) := Put(context, old(Snapshot()), w, now);
              refused == e && Snapshot() == path'.(announced := [], detected := [])
      ensures writer.hub.subs == old(writer.hub.subs)
      ensures var announced := Put(context, old(Snapshot()), w, now).0.announced;
              |announced| <= 1 &&
              forall s :: s in writer.hub.subs ==>
                s.State() == if announced == [] then old(s.State())
                             else AlertStream.Deliver(old(s.State()), AlertStream.Notification(old(writer.hub.next), announced[0]))
    {
      hide Correlate, SaveRow, EncodeCase, AlertStream.Append, Sound, IdentityOf, Blank;
      if w.closedAt.None? {
        return Some("a scored window must carry the close time of its last record");
      }
      var entity := registry.Id(w.kind, w.key);
      if Blank(context.familyOf(w)) {
        return Some("a detection must name a threat family");
      }
      var d := DetectionOf(context, entity, w, w.closedAt.value);
      var action, after := correlator.Ingest(d);
      var _ := writer.Accept(action, after, now);
      DuplicateKeepsStore(context.policy, old(correlator.store.State()), d);
      refused := None;
    }
  }

  lemma DuplicateKeepsStore(p: Policy, st: Store, d: Detection)
    requires Sound(st)
    ensures Correlate(p, st, d).action == Duplicate ==> Correlate(p, st, d).store == st
  {
    hide Correlate;
    CorrelateEffect(p, st, d);
  }
}
