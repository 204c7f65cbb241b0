/** The remote repository that a recorder talks to, with nobody else at work
    (scripts/mobile-release-ref.ts). */
module ReleaseRemote {
  import opened Text
  import opened ReleaseRefs

  class RemoteRepository {
    var refs: Refs

    constructor (refs: Refs)
      ensures this.refs == refs
    {
      this.refs := refs;
    }

    method ReadRemoteRef(ref: Ref, answered: bool) returns (existing: Option<Option<Sha>>)
      ensures existing == Read(refs, ref, answered)
    {
      if !answered {
        return None;
      }
      if ref in refs {
        return Some(Some(refs[ref]));
      }
      return Some(None);
    }

    method PreflightMobileReleaseRef(ref: Ref, sha: Sha, answered: bool) returns (phase: Phase)
      ensures phase == Pushing <==> answered && ref !in refs
      ensures phase == Succeeded(AlreadyRecorded) <==> answered && Lookup(refs, ref) == Some(sha)
      ensures phase == Threw <==> !answered || (ref in refs && refs[ref] != sha)
      ensures phase == AfterInspection(sha, Read(refs, ref, answered))
    {
      var existing := ReadRemoteRef(ref, answered);
      if existing.None? {
        return Threw;
      }
      if existing.value.None? {
        return Pushing;
      }
      if existing.value.value == sha {
        return Succeeded(AlreadyRecorded);
      }
      return Threw;
    }

    method RecordMobileReleaseRef(ref: Ref, sha: Sha, answers: Answers) returns (phase: Phase)
      requires ref !in refs ==> PossiblePush(refs, ref, sha, answers.push)
      modifies this
      ensures Call(refs, phase) == Record(old(refs), ref, sha, answers)
    {
      phase := PreflightMobileReleaseRef(ref, sha, answers.inspected);
      if phase != Pushing {
        return;
      }
      if answers.push.applied {
        refs := refs[ref := sha];
      }
      if !answers.push.reportedOk {
        return Threw;
      }
      var recorded := ReadRemoteRef(ref, answers.verified);
      if recorded != Some(Some(sha)) {
        return Threw;
      }
      return Succeeded(Created);
    }
  }
}
