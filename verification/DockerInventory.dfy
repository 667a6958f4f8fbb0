/** Docker as cancellation sees it (sandbox/docker_adapter.py). */
module DockerInventory {
  import opened Basics

  type Labels = map<string, string>

  datatype Container = Container(name: string, labels: Labels)

  datatype Image = Image(digest: string, labels: Labels)

  datatype Presence<+T> = Absent | Present(state: T) | Unknown

  datatype ContainerState = ContainerState(containerId: string, labels: Labels)

  type Containers = map<string, Container>

  type Tags = map<string, Image>

  // `name=^/{pattern}$` is a regular expression: a dot in the pattern stands for any character.
  ghost predicate NameMatches(pattern: string, name: string) {
    && |pattern| == |name|
    && forall i :: 0 <= i < |pattern| ==> pattern[i] == '.' || pattern[i] == name[i]
  }

  // `id={pattern}` selects every identifier that starts with the pattern.
  ghost predicate Selects(pattern: string, byName: bool, id: string, c: Container) {
    if byName then NameMatches(pattern, c.name) else pattern <= id
  }

  ghost function Matching(containers: Containers, pattern: string, byName: bool): set<string> {
    set id | id in containers && Selects(pattern, byName, id, containers[id])
  }

  lemma SingletonElement<T>(s: set<T>, x: T)
    requires |s| == 1 && x in s
    ensures s == {x}
  {
    forall y | y in s ensures y == x {
      if y != x {
        SubsetCardinality({x, y}, s);
      }
    }
  }

  // What `image ls` and then `image inspect` tell about a tag: the second command may already see
  // another image, or none.
  ghost function TagPresence(tag: string, listed: Tags, inspected: Tags): Presence<Image> {
    if tag !in listed then Absent
    else if tag !in inspected || inspected[tag].digest != listed[tag].digest then Unknown
    else Present(inspected[tag])
  }

  // A tag that was removed, the image it named then, and the image it named when it was last
  // inspected.
  datatype Untagging = Untagging(tag: string, seen: Option<Image>, image: Image)

  // `quiet`: nobody else touches Docker. `faults`: a command may time out or fail, with or
  // without having taken effect.
  class Docker {
    const quiet: bool
    const faults: bool
    // An identifier is drawn at random for one container, whose labels never change.
    const labelsOf: string -> Labels
    var containers: Containers
    var tags: Tags
    ghost var removed: set<string>
    ghost var untagged: set<Untagging>
    // The image each tag named when it was last inspected.
    ghost var seen: map<string, Image>

    ghost predicate Valid()
      reads this
    {
      && (forall id :: id in containers ==> containers[id].labels == labelsOf(id))
      && (quiet ==> forall id :: id in removed ==> id !in containers)
      && (quiet ==> forall u :: u in untagged ==> u.tag !in tags)
    }

    constructor (quiet: bool, faults: bool, labelsOf: string -> Labels, containers: Containers, tags: Tags)
      requires forall id :: id in containers ==> containers[id].labels == labelsOf(id)
      ensures Valid() && this.quiet == quiet && this.faults == faults && this.labelsOf == labelsOf
      ensures this.containers == containers && this.tags == tags && removed == {} && untagged == {}
      ensures seen == map[]
    {
      this.quiet, this.faults, this.labelsOf := quiet, faults, labelsOf;
      this.containers, this.tags := containers, tags;
      removed, untagged, seen := {}, {}, map[];
    }

    // Anybody else between two commands.
    method Interfere()
      requires Valid()
      modifies `containers, `tags
      ensures Valid()
      ensures quiet ==> containers == old(containers) && tags == old(tags)
    {
      if quiet {
        return;
      }
      var others: Containers := *;
      if forall id :: id in others ==> others[id].labels == labelsOf(id) {
        containers := others;
      }
      tags := *;
    }

    method InspectContainer(pattern: string, byName: bool) returns (presence: Presence<ContainerState>)
      requires Valid()
      modifies `containers, `tags
      ensures Valid()
      ensures quiet ==> containers == old(containers) && tags == old(tags)
      ensures presence.Present? ==> presence.state.labels == labelsOf(presence.state.containerId)
      ensures presence.Present? && !byName ==> pattern <= presence.state.containerId
      ensures quiet && presence.Present? ==> presence.state.containerId in containers
      ensures quiet && presence.Present? && byName ==>
        var name := containers[presence.state.containerId].name;
        |name| == |pattern| && forall i :: 0 <= i < |name| ==> pattern[i] == '.' || pattern[i] == name[i]
      ensures quiet && presence.Absent? ==> Matching(containers, pattern, byName) == {}
      ensures quiet && presence.Present? ==> Matching(containers, pattern, byName) == {presence.state.containerId}
      ensures quiet && !faults && presence.Unknown? ==> |Matching(containers, pattern, byName)| > 1
    {
      var listed := set id | id in containers && if byName then
                                                   |pattern| == |containers[id].name|
                                                   && forall i :: 0 <= i < |pattern| ==>
                                                        pattern[i] in ['.', containers[id].name[i]]
                                                 else pattern <= id;
      assert listed == Matching(containers, pattern, byName);
      var failed: bool := *;
      if faults && failed {
        return Unknown;
      }
      if listed == {} {
        return Absent;
      }
      if |listed| != 1 {
        return Unknown;
      }
      var id :| id in listed;
      SingletonElement(listed, id);
      Interfere();
      failed := *;
      if (faults && failed) || id !in containers {
        return Unknown;
      }
      return Present(ContainerState(id, containers[id].labels));
    }

    // `old(tags)` is what the first command sees, `tags` what the second one sees.
    method InspectTag(tag: string) returns (presence: Presence<Image>)
      requires Valid()
      modifies `containers, `tags, `seen
      ensures Valid()
      ensures quiet ==> containers == old(containers) && tags == old(tags)
      ensures presence == TagPresence(tag, old(tags), tags) || (faults && presence.Unknown?)
      ensures seen == if presence.Present? then old(seen)[tag := presence.state] else old(seen)
    {
      var failed: bool := *;
      if faults && failed {
        return Unknown;
      }
      if tag !in tags {
        return Absent;
      }
      var digest := tags[tag].digest;
      Interfere();
      failed := *;
      if (faults && failed) || tag !in tags || tags[tag].digest != digest {
        return Unknown;
      }
      seen := seen[tag := tags[tag]];
      return Present(tags[tag]);
    }

    method Remove(id: string) returns (ok: bool)
      requires Valid()
      modifies `containers, `removed
      ensures Valid()
      ensures removed == if id in old(containers) && id !in containers then old(removed) + {id} else old(removed)
      ensures containers == old(containers) || containers == old(containers) - {id}
      ensures ok ==> id in old(containers) && id !in containers
      ensures !faults && id in old(containers) ==> ok
    {
      var lost: bool, failed: bool := *, *;
      if faults && lost {
        return false;
      }
      if id !in containers {
        return false;
      }
      containers := containers - {id};
      removed := removed + {id};
      return !(faults && failed);
    }

    ghost function UntaggingOf(tags: Tags, tag: string): Untagging
      requires tag in tags
      reads `seen
    {
      Untagging(tag, if tag in seen then Some(seen[tag]) else None, tags[tag])
    }

    method RemoveTag(tag: string) returns (ok: bool)
      requires Valid()
      modifies `tags, `untagged
      ensures Valid()
      ensures untagged == if tag in old(tags) && tag !in tags then old(untagged) + {UntaggingOf(old(tags), tag)}
                          else old(untagged)
      ensures tags == old(tags) || tags == old(tags) - {tag}
      ensures ok ==> tag in old(tags) && tag !in tags
      ensures !faults && tag in old(tags) ==> ok
    {
      var lost: bool, failed: bool := *, *;
      if faults && lost {
        return false;
      }
      if tag !in tags {
        return false;
      }
      untagged := untagged + {UntaggingOf(tags, tag)};
      tags := tags - {tag};
      return !(faults && failed);
    }
  }
}
