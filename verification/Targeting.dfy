/** Routing keys and consumer profiles (runinator-comm/src/targeting.rs). */
module Targeting {
  import opened Wrappers

  type ReplicaId = nat
  type Labels = map<string, string>

  datatype ActionTarget =
    | Any
    | Labelled(selector: Labels)
    | Replica(replicaId: ReplicaId)

  datatype ConsumerProfile = ConsumerProfile(
    id: string,
    replicaId: Option<ReplicaId>,
    labels: Labels,
    exclusive: bool)

  /** `ConsumerProfile::shared`: the general-pool consumer. */
  function Shared(id: string): ConsumerProfile {
    ConsumerProfile(id, None, map[], false)
  }

  /** Whether a consumer may take a delivery; an exclusive one takes no work of the general pool. */
  predicate Matches(target: ActionTarget, profile: ConsumerProfile) {
    match target
    case Any => !profile.exclusive
    case Labelled(selector) =>
      forall key <- selector :: key in profile.labels && profile.labels[key] == selector[key]
    case Replica(replicaId) => profile.replicaId == Some(replicaId)
  }

  /**
   Who takes what: general-pool work any consumer that is not exclusive, labelled work one that holds every
   required label with its value, and a replica's work that replica alone.
   */
  lemma MatchesIff(target: ActionTarget, profile: ConsumerProfile)
    ensures target.Any? ==> (Matches(target, profile) <==> !profile.exclusive)
    ensures target.Replica? ==> (Matches(target, profile) <==> profile.replicaId == Some(target.replicaId))
    ensures target.Labelled? ==>
              (Matches(target, profile) <==>
               forall key <- target.selector :: (key, target.selector[key]) in profile.labels.Items)
  {
  }

  /** Adding labels to a consumer, or constraints to a selector, moves the match only one way. */
  lemma MatchingIsMonotone(weak: Labels, strong: Labels, profile: ConsumerProfile, extra: Labels)
    requires forall key <- weak :: key in strong && strong[key] == weak[key]
    requires forall key <- profile.labels :: key in extra && extra[key] == profile.labels[key]
    requires Matches(Labelled(strong), profile)
    ensures Matches(Labelled(weak), profile.(labels := extra))
    ensures forall t: ActionTarget :: Matches(t, profile) ==> Matches(t, profile.(labels := extra))
  {
    var wider := profile.(labels := extra);
    forall t: ActionTarget | Matches(t, profile)
      ensures Matches(t, wider)
    {
      if t.Labelled? {
        forall key <- t.selector ensures key in extra && extra[key] == t.selector[key] {
          assert key in profile.labels;
        }
      }
    }
    forall key <- weak ensures key in extra && extra[key] == weak[key] {
      assert key in strong && key in profile.labels;
    }
  }
}
