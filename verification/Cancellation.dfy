/** Cancelling an attempt's sandbox resources (composition/production_cancellation.py). */
module Cancellation {
  import opened Basics
  import opened DockerInventory

  datatype Kind = ContainerKind | ImageKind | ContainerIntent | ImageIntent

  datatype Resource = Resource(
    kind: Kind, resourceId: string, tag: Option<string>, labels: Labels, byName: bool, baseline: bool)

  datatype Status = PRESERVED | ABSENT | STOPPED | UNKNOWN

  datatype CancelError = ResourceMissing

  ghost predicate IsContainer(r: Resource) {
    r.kind.ContainerKind? || r.kind.ContainerIntent?
  }

  // The state inspected is the one the snapshot recorded.
  ghost predicate SameContainer(r: Resource, id: string, labels: Labels) {
    && labels == r.labels
    && (r.kind.ContainerKind? && !r.byName ==> id == r.resourceId)
  }

  ghost predicate SameImage(r: Resource, image: Image) {
    && image.labels == r.labels
    && (r.kind.ImageKind? ==> image.digest == r.resourceId)
  }

  // What a resource entitles cancellation to remove.
  ghost predicate MayRemove(r: Resource, id: string, labels: Labels) {
    !r.baseline && IsContainer(r) && SameContainer(r, id, labels)
  }

  ghost predicate MayUntag(r: Resource, tag: string) {
    !r.baseline && !IsContainer(r) && r.tag == Some(tag)
  }

  // Nothing that the entry describes is left.
  ghost predicate Gone(containers: Containers, tags: Tags, r: Resource) {
    if IsContainer(r) then Matching(containers, r.resourceId, r.byName) == {}
    else r.tag.Some? && r.tag.value !in tags
  }

  // The outcome with nobody else around and no failing command.
  ghost predicate IsOutcome(containers: Containers, tags: Tags, r: Resource, status: Status) {
    if r.baseline then status == PRESERVED
    else if Gone(containers, tags, r) then status == ABSENT
    else if IsContainer(r) then
      status == if exists id :: Matching(containers, r.resourceId, r.byName) == {id}
                                && id in containers && SameContainer(r, id, containers[id].labels)
                then STOPPED else UNKNOWN
    else status == if r.tag.Some? && r.tag.value in tags && SameImage(r, tags[r.tag.value]) then STOPPED else UNKNOWN
  }

  // The container that removing the entry takes away.
  ghost predicate Takes(containers: Containers, r: Resource, id: string) {
    && !r.baseline && IsContainer(r) && id in containers
    && Matching(containers, r.resourceId, r.byName) == {id} && SameContainer(r, id, containers[id].labels)
  }

  // What one entry leaves behind, with nobody else around and no failing command.
  ghost function LeftContainers(containers: Containers, r: Resource): Containers {
    map id | id in containers && !Takes(containers, r, id) :: containers[id]
  }

  ghost function LeftTags(tags: Tags, r: Resource): Tags {
    if r.baseline || IsContainer(r) || r.tag.None? || r.tag.value !in tags || !SameImage(r, tags[r.tag.value]) then tags
    else tags - {r.tag.value}
  }

  // What is left after the entries, one after the other.
  ghost function ContainersAfter(containers: Containers, resources: seq<Resource>): Containers {
    if resources == [] then containers
    else LeftContainers(ContainersAfter(containers, resources[..|resources| - 1]), resources[|resources| - 1])
  }

  ghost function TagsAfter(tags: Tags, resources: seq<Resource>): Tags {
    if resources == [] then tags
    else LeftTags(TagsAfter(tags, resources[..|resources| - 1]), resources[|resources| - 1])
  }

  // The later image has what the snapshot would be compared with in common with the earlier one.
  ghost predicate Alike(r: Resource, earlier: Image, later: Image) {
    later.labels == earlier.labels && (r.kind.ImageKind? ==> later.digest == earlier.digest)
  }

  // The tag is one the entry names, and when it was last inspected its image was the entry's. The
  // image it named at its removal is the entry's exactly when it was still alike.
  ghost predicate RightlyUntagged(r: Resource, u: Untagging, quiet: bool) {
    && MayUntag(r, u.tag) && u.seen.Some? && SameImage(r, u.seen.value)
    && (SameImage(r, u.image) <==> Alike(r, u.seen.value, u.image))
    && (quiet ==> u.image == u.seen.value)
  }

  // The outcome of an image entry when the three commands see these tags and none of them fails.
  ghost function TagOutcome(r: Resource, listed: Tags, inspected: Tags, removing: Tags): Status {
    if r.tag.None? then UNKNOWN
    else match TagPresence(r.tag.value, listed, inspected)
      case Absent => ABSENT
      case Unknown => UNKNOWN
      case Present(image) =>
        if !SameImage(r, image) || r.tag.value !in removing then UNKNOWN else STOPPED
  }

  // Whatever others do between the commands, an image whose tag is removed belongs to the entry
  // exactly when it is like the image inspected just before.
  lemma UntaggedImageMatchesIff(r: Resource, listed: Tags, inspected: Tags, removing: Tags)
    requires TagOutcome(r, listed, inspected, removing) == STOPPED
    ensures r.tag.Some? && r.tag.value in inspected && r.tag.value in removing
    ensures SameImage(r, inspected[r.tag.value])
    ensures SameImage(r, removing[r.tag.value]) <==> Alike(r, inspected[r.tag.value], removing[r.tag.value])
  {
  }

  // Somebody moves the tag to an image of their own between inspection and removal: the entry
  // counts as stopped, and the foreign image has lost its tag.
  lemma ForeignImageLosesItsTag()
    ensures var own, foreign := Image("sha256:1", map["owner" := "us"]), Image("sha256:2", map["owner" := "them"]);
      var r := Resource(ImageKind, "sha256:1", Some("tag"), own.labels, false, false);
      var before: Tags := map["tag" := own];
      var moved: Tags := map["tag" := foreign];
      && TagOutcome(r, before, before, moved) == STOPPED && !SameImage(r, moved["tag"])
      && foreign !in (moved - {"tag"}).Values
  {
  }

  twostate predicate RemovedOnly(docker: Docker, r: Resource)
    reads docker
  {
    && old(docker.removed) <= docker.removed && old(docker.untagged) <= docker.untagged
    && (forall id :: id in docker.removed ==> id in old(docker.removed) || MayRemove(r, id, docker.labelsOf(id)))
    && (forall u :: u in docker.untagged ==>
          u in old(docker.untagged) || RightlyUntagged(r, u, docker.quiet))
  }

  // With nobody else around, exactly what was removed is missing.
  twostate predicate OnlyMissing(docker: Docker)
    reads docker
  {
    docker.quiet ==>
      (forall id :: id in docker.containers <==> id in old(docker.containers) && id !in docker.removed)
      && (forall id :: id in docker.containers ==> docker.containers[id] == old(docker.containers)[id])
      && (forall tag :: tag in docker.tags ==> tag in old(docker.tags) && docker.tags[tag] == old(docker.tags)[tag])
      && (forall tag :: tag in old(docker.tags) && tag !in docker.tags ==>
            Untagging(tag, Some(old(docker.tags)[tag]), old(docker.tags)[tag]) in docker.untagged)
  }

  method CancelContainer(docker: Docker, r: Resource) returns (status: Status)
    requires docker.Valid() && !r.baseline && IsContainer(r)
    modifies docker
    ensures docker.Valid() && RemovedOnly(docker, r) && OnlyMissing(docker)
    ensures docker.untagged == old(docker.untagged)
    ensures docker.quiet ==> docker.tags == old(docker.tags)
    ensures status != PRESERVED
    ensures docker.quiet && status in {STOPPED, ABSENT} ==> Gone(docker.containers, docker.tags, r)
    ensures docker.quiet && old(Gone(docker.containers, docker.tags, r)) ==>
              status != STOPPED && docker.removed == old(docker.removed)
    ensures docker.quiet && !docker.faults ==> old(IsOutcome(docker.containers, docker.tags, r, status))
    ensures forall id :: id in docker.removed && id !in old(docker.removed) ==>
              docker.labelsOf(id) == r.labels && (r.kind == ContainerKind && !r.byName ==> id == r.resourceId)
    ensures docker.quiet && !docker.faults ==> docker.containers == old(LeftContainers(docker.containers, r))
    ensures docker.quiet && !docker.faults ==>
              forall id :: old(Matching(docker.containers, r.resourceId, r.byName)) == {id}
                           && docker.labelsOf(id) != r.labels ==>
                             status == UNKNOWN && docker.removed == old(docker.removed)
  {
    var presence := docker.InspectContainer(r.resourceId, r.byName);
    match presence
    case Absent => return ABSENT;
    case Unknown => return UNKNOWN;
    case Present(state) =>
      if state.labels != r.labels
         || (r.kind == ContainerKind && !r.byName && state.containerId != r.resourceId)
      {
        return UNKNOWN;
      }
      docker.Interfere();
      var ok := docker.Remove(state.containerId);
      return if ok then STOPPED else UNKNOWN;
  }

  // `inspected` and `removing` are the tags when the second and the third command run.
  method CancelImage(docker: Docker, r: Resource)
    returns (status: Status, ghost inspected: Tags, ghost removing: Tags)
    requires docker.Valid() && !r.baseline && !IsContainer(r)
    modifies docker
    ensures docker.Valid() && RemovedOnly(docker, r) && OnlyMissing(docker)
    ensures docker.removed == old(docker.removed)
    ensures status == TagOutcome(r, old(docker.tags), inspected, removing) || (docker.faults && status == UNKNOWN)
    ensures status == STOPPED ==> docker.tags == removing - {r.tag.value}
    ensures status == STOPPED ==>
      docker.untagged
      == old(docker.untagged) + {Untagging(r.tag.value, Some(inspected[r.tag.value]), removing[r.tag.value])}
    ensures status != STOPPED && !docker.faults ==> docker.untagged == old(docker.untagged)
    ensures docker.quiet ==> inspected == removing == old(docker.tags)
    ensures docker.quiet && status in {STOPPED, ABSENT} ==> Gone(docker.containers, docker.tags, r)
    ensures docker.quiet && old(Gone(docker.containers, docker.tags, r)) ==>
              status != STOPPED && docker.untagged == old(docker.untagged)
    ensures docker.quiet && !docker.faults ==> old(IsOutcome(docker.containers, docker.tags, r, status))
    ensures forall u :: u in docker.untagged && u !in old(docker.untagged) ==>
              && Some(u.tag) == r.tag && u.seen.Some? && u.seen.value.labels == r.labels
              && (r.kind == ImageKind ==> u.seen.value.digest == r.resourceId)
    ensures docker.quiet ==> docker.containers == old(docker.containers)
    ensures docker.quiet && !docker.faults ==> docker.tags == old(LeftTags(docker.tags, r))
    ensures docker.quiet && !docker.faults && r.tag.Some? && r.tag.value in old(docker.tags)
            && old(docker.tags)[r.tag.value].labels != r.labels ==>
              status == UNKNOWN && docker.untagged == old(docker.untagged)
  {
    inspected, removing := docker.tags, docker.tags;
    if r.tag.None? {
      status := UNKNOWN;
      return;
    }
    var presence := docker.InspectTag(r.tag.value);
    inspected, removing := docker.tags, docker.tags;
    match presence
    case Absent => status := ABSENT;
    case Unknown => status := UNKNOWN;
    case Present(image) =>
      if image.labels != r.labels || (r.kind == ImageKind && image.digest != r.resourceId) {
        status := UNKNOWN;
        return;
      }
      docker.Interfere();
      removing := docker.tags;
      var ok := docker.RemoveTag(r.tag.value);
      status := if ok then STOPPED else UNKNOWN;
  }

  method CancelResource(docker: Docker, r: Resource) returns (status: Status)
    requires docker.Valid()
    modifies docker
    ensures docker.Valid() && RemovedOnly(docker, r) && OnlyMissing(docker)
    ensures status == PRESERVED <==> r.baseline
    ensures r.baseline ==> docker.removed == old(docker.removed) && docker.untagged == old(docker.untagged)
    ensures docker.quiet && status in {STOPPED, ABSENT} ==> Gone(docker.containers, docker.tags, r)
    ensures docker.quiet && old(Gone(docker.containers, docker.tags, r)) ==>
              status != STOPPED && docker.removed == old(docker.removed) && docker.untagged == old(docker.untagged)
    ensures docker.quiet && !docker.faults ==> old(IsOutcome(docker.containers, docker.tags, r, status))
    ensures docker.quiet && !docker.faults ==>
              && docker.containers == old(LeftContainers(docker.containers, r))
              && docker.tags == old(LeftTags(docker.tags, r))
  {
    if r.baseline {
      return PRESERVED;
    }
    if r.kind == ContainerKind || r.kind == ContainerIntent {
      status := CancelContainer(docker, r);
    } else {
      ghost var inspected, removing;
      status, inspected, removing := CancelImage(docker, r);
    }
  }

  // ------------------------------------------------------------------ the whole snapshot

  function Overall(statuses: seq<Status>): (status: Status)
    ensures status == UNKNOWN <==> UNKNOWN in statuses
    ensures status == PRESERVED <==> forall s :: s in statuses ==> s == PRESERVED
    ensures status == STOPPED <==> STOPPED in statuses && UNKNOWN !in statuses
  {
    if UNKNOWN in statuses then UNKNOWN
    else if STOPPED in statuses then STOPPED
    else if ABSENT in statuses then ABSENT
    else
      assert forall s :: s in statuses ==> s != UNKNOWN && s != STOPPED && s != ABSENT;
      PRESERVED
  }

  ghost predicate Entitled(resources: seq<Resource>, id: string, labels: Labels) {
    exists r :: r in resources && MayRemove(r, id, labels)
  }

  ghost predicate EntitledTag(resources: seq<Resource>, u: Untagging, quiet: bool) {
    exists r :: r in resources && RightlyUntagged(r, u, quiet)
  }

  // Only what a snapshot entry describes is removed. With interference the labels of a removed
  // container still agree, because an identifier keeps its labels; of a removed tag they agree
  // when it was inspected.
  twostate predicate RemovedByAny(docker: Docker, resources: seq<Resource>)
    reads docker
  {
    && old(docker.removed) <= docker.removed && old(docker.untagged) <= docker.untagged
    && (forall id :: id in docker.removed ==>
          id in old(docker.removed) || Entitled(resources, id, docker.labelsOf(id)))
    && (forall u :: u in docker.untagged ==>
          u in old(docker.untagged) || EntitledTag(resources, u, docker.quiet))
  }

  ghost predicate AllGone(containers: Containers, tags: Tags, resources: seq<Resource>) {
    forall r :: r in resources && !r.baseline ==> Gone(containers, tags, r)
  }

  // A pass that starts with every entry gone removes nothing and stops nothing.
  twostate predicate FoundNothing(docker: Docker, resources: seq<Resource>, statuses: seq<Status>)
    reads docker
  {
    && docker.removed == old(docker.removed) && docker.untagged == old(docker.untagged)
    && AllGone(docker.containers, docker.tags, resources)
    && STOPPED !in statuses && (!docker.faults ==> UNKNOWN !in statuses)
  }

  // Every status is the outcome of its entry on what the entries before it left.
  ghost predicate AreOutcomes(containers: Containers, tags: Tags, resources: seq<Resource>, statuses: seq<Status>) {
    && |statuses| <= |resources|
    && forall k :: 0 <= k < |statuses| ==>
      IsOutcome(ContainersAfter(containers, resources[..k]), TagsAfter(tags, resources[..k]), resources[k], statuses[k])
  }

  // The entries decided so far, and what they left.
  ghost predicate Followed(containers: Containers, tags: Tags, resources: seq<Resource>, statuses: seq<Status>,
                           left: Containers, leftTags: Tags) {
    && AreOutcomes(containers, tags, resources, statuses)
    && left == ContainersAfter(containers, resources[..|statuses|])
    && leftTags == TagsAfter(tags, resources[..|statuses|])
  }

  lemma FollowOneMore(containers: Containers, tags: Tags, resources: seq<Resource>, statuses: seq<Status>,
                      left: Containers, leftTags: Tags, status: Status)
    requires Followed(containers, tags, resources, statuses, left, leftTags) && |statuses| < |resources|
    requires IsOutcome(left, leftTags, resources[|statuses|], status)
    ensures Followed(containers, tags, resources, statuses + [status],
                     LeftContainers(left, resources[|statuses|]), LeftTags(leftTags, resources[|statuses|]))
  {
    var k := |statuses|;
    OneMoreEntry(containers, tags, resources, k);
    forall j | 0 <= j < k + 1
      ensures IsOutcome(ContainersAfter(containers, resources[..j]), TagsAfter(tags, resources[..j]), resources[j],
                        (statuses + [status])[j])
    {
      assert j < k ==> (statuses + [status])[j] == statuses[j];
    }
  }

  lemma {:induction false} OneMoreEntry(containers: Containers, tags: Tags, resources: seq<Resource>, i: nat)
    requires i < |resources|
    ensures ContainersAfter(containers, resources[..i + 1])
         == LeftContainers(ContainersAfter(containers, resources[..i]), resources[i])
    ensures TagsAfter(tags, resources[..i + 1]) == LeftTags(TagsAfter(tags, resources[..i]), resources[i])
  {
    assert resources[..i + 1][..i] == resources[..i];
  }

  // What is gone stays gone while things are only removed.
  lemma OneMoreGone(containers: Containers, tags: Tags, left: Containers, leftTags: Tags, resources: seq<Resource>,
                    i: nat)
    requires i < |resources| && AllGone(containers, tags, resources[..i])
    requires resources[i].baseline || Gone(left, leftTags, resources[i])
    requires forall id :: id in left ==> id in containers && left[id] == containers[id]
    requires forall tag :: tag in leftTags ==> tag in tags
    ensures AllGone(left, leftTags, resources[..i + 1])
  {
    assert resources[..i + 1] == resources[..i] + [resources[i]];
    forall r | r in resources[..i] && !r.baseline ensures Gone(left, leftTags, r) {
      assert Gone(containers, tags, r);
      if IsContainer(r) {
        assert forall id :: id in Matching(left, r.resourceId, r.byName) ==>
          id in Matching(containers, r.resourceId, r.byName);
      }
    }
  }

  method Cancel(docker: Docker, resources: seq<Resource>) returns (result: Result<seq<Status>, CancelError>)
    requires docker.Valid()
    modifies docker
    ensures docker.Valid() && RemovedByAny(docker, resources) && OnlyMissing(docker)
    ensures result.Err? <==> resources == []
    ensures result.Ok? ==> |result.value| == |resources|
    ensures result.Ok? ==>
      forall k :: 0 <= k < |resources| ==> (result.value[k] == PRESERVED <==> resources[k].baseline)
    ensures docker.quiet && result.Ok? && Overall(result.value) != UNKNOWN ==>
              AllGone(docker.containers, docker.tags, resources)
    ensures docker.quiet && old(AllGone(docker.containers, docker.tags, resources)) ==>
              FoundNothing(docker, resources, if result.Ok? then result.value else [])
    ensures docker.quiet && !docker.faults && result.Ok? ==>
              Followed(old(docker.containers), old(docker.tags), resources, result.value, docker.containers,
                       docker.tags)
    ensures forall id :: id in docker.removed && id !in old(docker.removed) ==>
              exists r :: r in resources && !r.baseline && (r.kind == ContainerKind || r.kind == ContainerIntent)
                          && docker.labelsOf(id) == r.labels
    ensures forall u :: u in docker.untagged && u !in old(docker.untagged) ==>
              exists r :: r in resources && !r.baseline && (r.kind == ImageKind || r.kind == ImageIntent)
                          && r.tag == Some(u.tag) && u.seen.Some? && u.seen.value.labels == r.labels
  {
    if resources == [] {
      return Err(ResourceMissing);
    }
    var statuses: seq<Status> := [];
    ghost var again := AllGone(docker.containers, docker.tags, resources);
    ghost var containers0, tags0 := docker.containers, docker.tags;
    for i := 0 to |resources|
      invariant docker.Valid() && OnlyMissing(docker) && RemovedByAny(docker, resources)
      invariant |statuses| == i
      invariant forall k :: 0 <= k < i ==> (statuses[k] == PRESERVED <==> resources[k].baseline)
      invariant docker.quiet && UNKNOWN !in statuses ==> AllGone(docker.containers, docker.tags, resources[..i])
      invariant docker.quiet && again ==> FoundNothing(docker, resources, statuses)
      invariant docker.quiet && !docker.faults ==>
        Followed(containers0, tags0, resources, statuses, docker.containers, docker.tags)
    {
      ghost var containers, tags := docker.containers, docker.tags;
      var status := CancelResource(docker, resources[i]);
      if docker.quiet && !docker.faults {
        FollowOneMore(containers0, tags0, resources, statuses, containers, tags, status);
      }
      if docker.quiet && UNKNOWN !in statuses && status != UNKNOWN {
        OneMoreGone(containers, tags, docker.containers, docker.tags, resources, i);
      }
      statuses := statuses + [status];
      assert resources[..i + 1] == resources[..i] + [resources[i]];
    }
    assert resources[..|resources|] == resources;
    return Ok(statuses);
  }

  // A repeated cancellation, as recovery after a crash performs it, finds nothing to do.
  method CancelAgain(docker: Docker, resources: seq<Resource>)
    returns (first: Result<seq<Status>, CancelError>, second: Result<seq<Status>, CancelError>)
    requires docker.Valid() && docker.quiet
    modifies docker
    ensures docker.Valid() && RemovedByAny(docker, resources)
    ensures first.Ok? && Overall(first.value) != UNKNOWN ==>
              && second.Ok? && STOPPED !in second.value
              && AllGone(docker.containers, docker.tags, resources)
              && (!docker.faults ==> Overall(second.value) in {ABSENT, PRESERVED})
  {
    first := Cancel(docker, resources);
    second := Cancel(docker, resources);
  }
}
