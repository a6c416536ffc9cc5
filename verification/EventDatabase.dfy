/** The event processor as it is written: statement after statement over shared tables
    and a cache, with the incident id in a local variable that is reassigned on the way. */
module EventDatabase {
  import opened Options
  import opened DedupeModel
  import opened DedupeSafety
  import opened EventProcessor

  datatype Outcome = IncidentCreated | IncidentUpdated

  /** The id the processor takes from the cache or the query is the only one there is. */
  lemma FoundIsChosen(t: Tables, f: nat, net: CacheLink, i: nat)
    requires TablesSound(t)
    requires if Hit(t, f, net) then i == t.cache[f] else OpenFor(t, i, f)
    ensures Reaches(t, f, net) && HasKey(t, i, f) && i == Chosen(t, f, net)
  {
  }

  /** Storing the event row leaves every lookup as it was. */
  lemma StoredLooksUpTheSame(t: Tables, e: nat, f: nat)
    ensures var stored := t.(events := t.events[e := f]);
            && (forall i, k :: HasKey(stored, i, k) <==> HasKey(t, i, k))
            && (forall i, k :: OpenFor(stored, i, k) <==> OpenFor(t, i, k))
            && (e in t.events && t.events[e] == f ==> stored == t)
  {
  }

  lemma LinkedHolds(t: Tables, i: nat, e: nat)
    ensures (i, e) in Linked(t, i, e).links
    ensures forall j, k :: HasKey(Linked(t, i, e), j, k) <==> HasKey(t, j, k)
  {
  }

  class Database {
    var published: map<nat, nat>
    var events: map<nat, nat>
    var incidents: map<nat, Incident>
    var links: set<(nat, nat)>
    var cache: map<nat, nat>

    ghost function View(): Tables
      reads this
    {
      Tables(published, events, incidents, links, cache)
    }

    ghost predicate Valid()
      reads this
    {
      TablesSound(View())
    }

    constructor ()
      ensures Valid() && View() == EMPTY_SYSTEM.tables
    {
      published, events, incidents, links, cache := map[], map[], map[], {}, map[];
    }

    method FindOpenIncident(f: nat) returns (row: Option<nat>)
      ensures if AnyOpen(View(), f) then row.Some? && OpenFor(View(), row.value, f) else row == None
    {
      row := None;
      if i :| i in incidents && incidents[i].dedupeKey == f && !incidents[i].resolved {
        assert OpenFor(View(), i, f);
        row := Some(i);
      }
    }

    /** The counter moves only when the link is new. */
    method LinkEvent(i: nat, e: nat)
      requires i in incidents
      modifies this`links, this`incidents
      ensures View() == Linked(old(View()), i, e)
      ensures incidents[i].eventCount - |LinksOf(View(), i)| == old(incidents[i].eventCount - |LinksOf(View(), i)|)
    {
      if (i, e) !in links {
        AddedLink(View(), i, e, i);
        links := links + {(i, e)};
        incidents := incidents[i := incidents[i].(eventCount := incidents[i].eventCount + 1)];
        assert LinksOf(View(), i) == LinksOf(WithLink(old(View()), i, e), i);
      }
    }

    method RefreshDedupeWindow(f: nat, i: nat, writeUp: bool)
      modifies this`cache
      ensures View() == if writeUp then Cached(old(View()), f, i) else old(View())
    {
      if writeUp {
        cache := cache[f := i];
      }
    }

    /** Opens an incident and links the event, or returns the incident that holds the key
        already, whatever its status, without linking. */
    method CreateIncidentRecord(f: nat, e: nat, newId: nat) returns (i: nat)
      requires newId !in incidents
      modifies this`incidents, this`links
      ensures if Known(old(View()), f) then HasKey(old(View()), i, f) && View() == old(View())
              else i == newId && View() == Opened(old(View()), f, newId, e)
    {
      if existing :| existing in incidents && incidents[existing].dedupeKey == f {
        assert HasKey(View(), existing, f);
        return existing;
      }
      assert !Known(View(), f) by {
        if k :| HasKey(View(), k, f) {
          assert k in incidents;
        }
      }
      incidents := incidents[newId := Incident(f, false, 1)];
      links := links + {(newId, e)};
      return newId;
    }

    method ProcessEvent(e: nat, f: nat, net: CacheLink, newId: nat) returns (outcome: Outcome, incidentId: nat)
      requires Valid() && e in published && published[e] == f && newId !in incidents
      modifies this
      ensures Valid() && View() == Processed(old(View()), e, net, newId)
      ensures HasKey(View(), incidentId, f)
      ensures outcome == IncidentUpdated <==> Reaches(old(View()), f, net)
      ensures outcome == IncidentUpdated ==> (incidentId, e) in links
    {
      hide Rest, Chosen, Linked;
      ghost var before := View();
      ProcessedCases(before, e, net, newId);
      ProcessedSound(before, e, net, newId);
      if e !in events {
        events := events[e := f];
      }
      StoredLooksUpTheSame(before, e, f);
      hide TablesSound;
      assert View() == before.(events := before.events[e := f]);
      var found: Option<nat> := None;
      if net.readUp && f in cache {
        found := Some(cache[f]);
      }
      if found == None {
        found := FindOpenIncident(f);
      }
      if found.Some? {
        incidentId := found.value;
        FoundIsChosen(before, f, net, incidentId);
        LinkEvent(incidentId, e);
        LinkedHolds(before.(events := before.events[e := f]), incidentId, e);
        RefreshDedupeWindow(f, incidentId, net.writeUp);
        return IncidentUpdated, incidentId;
      }
      incidentId := CreateIncidentRecord(f, e, newId);
      RefreshDedupeWindow(f, incidentId, net.writeUp);
      return IncidentCreated, incidentId;
    }

    /** Drops the cache entry only if it still points at incident `i`. */
    method ClearDedupeCache(f: nat, i: nat)
      modifies this`cache
      ensures cache == if f in old(cache) && old(cache)[f] == i then old(cache) - {f} else old(cache)
      ensures old(Valid()) ==> Valid() && !(f in cache && cache[f] == i)
    {
      if f in cache && cache[f] == i {
        cache := cache - {f};
      }
      assert forall j, k :: HasKey(View(), j, k) <==> HasKey(old(View()), j, k);
      if old(Valid()) {
        forall l | l in links ensures LinkSound(View(), l) {
          assert LinkSound(old(View()), l);
        }
      }
    }
  }
}
