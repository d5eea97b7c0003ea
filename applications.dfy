/** The application's own slots of the browser store (src/utils/localStorage.ts): the user
    profile under `jame_user_profile` and the list of job applications under
    `jame_applications`. A slot holds the value JSON.parse gives back for what was written. */
module LocalStorage {
  import opened Types
  import opened Seqs

  // ---------------------------------------------------------------------------------------
  // Applications.

  /** getApplications: an empty slot reads as no applications. */
  function Stored(slot: Option<seq<JobApplication>>): seq<JobApplication> {
    if slot.None? then [] else slot.value
  }

  predicate HasJob(apps: seq<JobApplication>, jobId: string) {
    exists i :: 0 <= i < |apps| && apps[i].jobId == jobId
  }

  /** No job has two applications. */
  predicate UniqueIds(apps: seq<JobApplication>) {
    forall i, j :: 0 <= i < j < |apps| ==> apps[i].jobId != apps[j].jobId
  }

  /** `apps.filter(app => app.jobId !== jobId)` */
  function WithoutJob(apps: seq<JobApplication>, jobId: string): seq<JobApplication> {
    if apps == [] then []
    else if apps[0].jobId != jobId then [apps[0]] + WithoutJob(apps[1..], jobId)
    else WithoutJob(apps[1..], jobId)
  }

  /** The list saveApplication writes: the earlier applications for other jobs, in order,
      then the new one. */
  function Upsert(apps: seq<JobApplication>, application: JobApplication): seq<JobApplication> {
    WithoutJob(apps, application.jobId) + [application]
  }

  /** `apps.find(app => app.jobId === jobId)?.status`, or nothing. */
  function StatusOf(apps: seq<JobApplication>, jobId: string): (r: Option<ApplicationStatus>)
    ensures r.None? <==> !HasJob(apps, jobId)
  {
    if apps == [] then None
    else if apps[0].jobId == jobId then Some(apps[0].status)
    else
      var r := StatusOf(apps[1..], jobId);
      assert HasJob(apps, jobId) ==> HasJob(apps[1..], jobId) by {
        if HasJob(apps, jobId) {
          var i :| 0 <= i < |apps| && apps[i].jobId == jobId;
          assert apps[1..][i - 1] == apps[i];
        }
      }
      r
  }

  method GetApplications(store: Store) returns (apps: seq<JobApplication>)
    ensures apps == Stored(store.applications)
  {
    var stored := store.applications;
    if stored.None? {
      return [];
    }
    apps := stored.value;
  }

  method SaveApplication(store: Store, application: JobApplication)
    modifies store`applications
    ensures store.applications == Some(Upsert(Stored(old(store.applications)), application))
  {
    var existing := GetApplications(store);
    var updated := WithoutJob(existing, application.jobId) + [application];
    store.applications := Some(updated);
  }

  method GetApplicationStatus(store: Store, jobId: string) returns (status: Option<ApplicationStatus>)
    ensures status == StatusOf(Stored(store.applications), jobId)
  {
    var applications := GetApplications(store);
    status := StatusOf(applications, jobId);
  }

  /** The filter keeps, in order, exactly the applications for other jobs. */
  lemma {:induction false} WithoutJobShape(apps: seq<JobApplication>, jobId: string)
    ensures IsSubseq(WithoutJob(apps, jobId), apps)
    ensures forall x :: x in WithoutJob(apps, jobId) <==> x in apps && x.jobId != jobId
    ensures !HasJob(WithoutJob(apps, jobId), jobId)
    decreases |apps|
  {
    var r := WithoutJob(apps, jobId);
    if apps != [] {
      var rest := WithoutJob(apps[1..], jobId);
      WithoutJobShape(apps[1..], jobId);
      assert apps == [apps[0]] + apps[1..];
      SubseqPrepend(rest, apps[1..], apps[0]);
      if apps[0].jobId != jobId {
        assert r == [apps[0]] + rest;
        assert forall i :: 1 <= i < |r| ==> r[i] == rest[i - 1];
      }
    }
  }

  /** The filter keeps each application for another job as often as the list holds it, and
      none for the job. */
  lemma {:induction false} WithoutJobCounts(apps: seq<JobApplication>, jobId: string)
    ensures forall x :: multiset(WithoutJob(apps, jobId))[x] ==
                          if x.jobId != jobId then multiset(apps)[x] else 0
    decreases |apps|
  {
    if apps != [] {
      var rest := WithoutJob(apps[1..], jobId);
      WithoutJobCounts(apps[1..], jobId);
      assert apps == [apps[0]] + apps[1..];
      assert multiset(apps) == multiset{apps[0]} + multiset(apps[1..]);
      if apps[0].jobId != jobId {
        assert multiset(WithoutJob(apps, jobId)) == multiset{apps[0]} + multiset(rest);
      }
    }
  }

  /** With no application for the job, the filter changes nothing. */
  lemma {:induction false} WithoutAbsentJob(apps: seq<JobApplication>, jobId: string)
    requires !HasJob(apps, jobId)
    ensures WithoutJob(apps, jobId) == apps
    decreases |apps|
  {
    if apps != [] {
      assert !HasJob(apps[1..], jobId) by {
        forall i | 0 <= i < |apps[1..]| ensures apps[1..][i].jobId != jobId {
          assert apps[1..][i] == apps[i + 1];
        }
      }
      WithoutAbsentJob(apps[1..], jobId);
      assert apps[0].jobId != jobId;
      assert apps == [apps[0]] + apps[1..];
    }
  }

  /** The tail of a list with no repeated job has none either, and no application for the
      head's job. */
  lemma UniqueTail(apps: seq<JobApplication>)
    requires apps != [] && UniqueIds(apps)
    ensures UniqueIds(apps[1..]) && !HasJob(apps[1..], apps[0].jobId)
  {
    forall i, j | 0 <= i < j < |apps[1..]| ensures apps[1..][i].jobId != apps[1..][j].jobId {
      assert apps[1..][i] == apps[i + 1] && apps[1..][j] == apps[j + 1];
    }
    forall i | 0 <= i < |apps[1..]| ensures apps[1..][i].jobId != apps[0].jobId {
      assert apps[1..][i] == apps[i + 1];
    }
  }

  /** A head for another job does not change whether the list has an application for a job. */
  lemma HasJobPastHead(apps: seq<JobApplication>, jobId: string)
    requires apps != [] && apps[0].jobId != jobId
    ensures HasJob(apps, jobId) <==> HasJob(apps[1..], jobId)
  {
    if HasJob(apps, jobId) {
      var i :| 0 <= i < |apps| && apps[i].jobId == jobId;
      assert apps[1..][i - 1] == apps[i];
    }
    if HasJob(apps[1..], jobId) {
      var i :| 0 <= i < |apps[1..]| && apps[1..][i].jobId == jobId;
      assert apps[i + 1] == apps[1..][i];
    }
  }

  /** The filter keeps a list free of repeated jobs free of them, and with no repeats it
      drops one application exactly when the job has one. */
  lemma {:induction false} WithoutJobUnique(apps: seq<JobApplication>, jobId: string)
    requires UniqueIds(apps)
    ensures UniqueIds(WithoutJob(apps, jobId))
    ensures |WithoutJob(apps, jobId)| == if HasJob(apps, jobId) then |apps| - 1 else |apps|
    decreases |apps|
  {
    if apps != [] {
      var rest := WithoutJob(apps[1..], jobId);
      UniqueTail(apps);
      WithoutJobUnique(apps[1..], jobId);
      if apps[0].jobId != jobId {
        WithoutJobShape(apps[1..], jobId);
        HasJobPastHead(apps, jobId);
        var r := [apps[0]] + rest;
        assert WithoutJob(apps, jobId) == r;
        forall m | 0 <= m < |rest| ensures rest[m].jobId != apps[0].jobId {
          assert rest[m] in apps[1..];
        }
        forall a, b | 0 <= a < b < |r| ensures r[a].jobId != r[b].jobId {
          assert r[b] == rest[b - 1];
          if a > 0 {
            assert r[a] == rest[a - 1];
          }
        }
      }
    }
  }

  /** After a save the new application is last and is the only one for its job; the
      applications for other jobs are the earlier ones, in their order. */
  lemma UpsertShape(apps: seq<JobApplication>, application: JobApplication)
    ensures var r := Upsert(apps, application);
            && |r| >= 1 && r[|r| - 1] == application
            && (forall i :: 0 <= i < |r| - 1 ==> r[i].jobId != application.jobId)
            && IsSubseq(r[..|r| - 1], apps)
            && (forall x: JobApplication :: x.jobId != application.jobId ==> (x in r <==> x in apps))
            && (forall x: JobApplication :: multiset(r[..|r| - 1])[x] ==
                  if x.jobId != application.jobId then multiset(apps)[x] else 0)
  {
    var r := Upsert(apps, application);
    var kept := WithoutJob(apps, application.jobId);
    WithoutJobShape(apps, application.jobId);
    WithoutJobCounts(apps, application.jobId);
    assert r[..|r| - 1] == kept;
    forall i | 0 <= i < |r| - 1 ensures r[i].jobId != application.jobId {
      assert r[i] == kept[i];
    }
    forall x: JobApplication | x.jobId != application.jobId ensures x in r <==> x in apps {
      assert x in r <==> x in kept || x == application;
    }
  }

  /** Saving keeps the list free of repeated jobs, and it grows by one exactly when the job
      had no application yet. */
  lemma UpsertUnique(apps: seq<JobApplication>, application: JobApplication)
    requires UniqueIds(apps)
    ensures UniqueIds(Upsert(apps, application))
    ensures |Upsert(apps, application)| == if HasJob(apps, application.jobId) then |apps| else |apps| + 1
  {
    var kept := WithoutJob(apps, application.jobId);
    var r := Upsert(apps, application);
    WithoutJobUnique(apps, application.jobId);
    WithoutJobShape(apps, application.jobId);
    forall a, b | 0 <= a < b < |r| ensures r[a].jobId != r[b].jobId {
      assert r[a] == kept[a];
      if b < |kept| {
        assert r[b] == kept[b];
      }
    }
  }

  /** After a save the job's status is the saved one, and every other job's status is what
      it was. */
  lemma {:induction false} StatusAfterSave(apps: seq<JobApplication>, application: JobApplication,
                                           jobId: string)
    ensures StatusOf(Upsert(apps, application), application.jobId) == Some(application.status)
    ensures jobId != application.jobId ==>
              StatusOf(Upsert(apps, application), jobId) == StatusOf(apps, jobId)
    decreases |apps|
  {
    var r := Upsert(apps, application);
    var kept := WithoutJob(apps, application.jobId);
    WithoutJobShape(apps, application.jobId);
    StatusSkipsOthers(kept, [application], application.jobId);
    assert StatusOf([application], application.jobId) == Some(application.status);
    if jobId != application.jobId && apps != [] {
      StatusAfterSave(apps[1..], application, jobId);
      var rest := WithoutJob(apps[1..], application.jobId);
      if apps[0].jobId != application.jobId {
        assert r == [apps[0]] + (rest + [application]);
        assert r[1..] == rest + [application];
      }
    } else if jobId != application.jobId {
      assert r == [application];
    }
  }

  /** The status read for a job is the one of its first application in the list. */
  lemma StatusOfFirst(apps: seq<JobApplication>, jobId: string, i: nat)
    requires i < |apps| && apps[i].jobId == jobId && !HasJob(apps[..i], jobId)
    ensures StatusOf(apps, jobId) == Some(apps[i].status)
  {
    StatusSkipsOthers(apps[..i], apps[i..], jobId);
    assert apps[..i] + apps[i..] == apps;
    assert apps[i..][0] == apps[i];
  }

  /** A job with an application has a first one, and its status is the one read. */
  lemma StatusHasFirst(apps: seq<JobApplication>, jobId: string) returns (i: nat)
    requires HasJob(apps, jobId)
    ensures i < |apps| && apps[i].jobId == jobId && !HasJob(apps[..i], jobId)
    ensures StatusOf(apps, jobId) == Some(apps[i].status)
  {
    var j :| 0 <= j < |apps| && apps[j].jobId == jobId;
    i := 0;
    while apps[i].jobId != jobId
      invariant i <= j && !HasJob(apps[..i], jobId)
      decreases j - i
    {
      assert apps[..i + 1] == apps[..i] + [apps[i]];
      i := i + 1;
    }
    StatusOfFirst(apps, jobId, i);
  }

  /** A status lookup passes over a prefix holding no application for the job. */
  lemma {:induction false} StatusSkipsOthers(prefix: seq<JobApplication>, suffix: seq<JobApplication>,
                                             jobId: string)
    requires !HasJob(prefix, jobId)
    ensures StatusOf(prefix + suffix, jobId) == StatusOf(suffix, jobId)
    decreases |prefix|
  {
    if prefix != [] {
      assert !HasJob(prefix[1..], jobId) by {
        forall i | 0 <= i < |prefix[1..]| ensures prefix[1..][i].jobId != jobId {
          assert prefix[1..][i] == prefix[i + 1];
        }
      }
      StatusSkipsOthers(prefix[1..], suffix, jobId);
      assert prefix[0].jobId != jobId;
      assert (prefix + suffix)[0] == prefix[0];
      assert (prefix + suffix)[1..] == prefix[1..] + suffix;
    } else {
      assert prefix + suffix == suffix;
    }
  }

  // ---------------------------------------------------------------------------------------
  // The user profile.

  /** What JSON.parse gives back for a stringified profile: an uploaded file has no own
      enumerable properties, so it comes back as an empty object; every other field comes
      back as it was. */
  function Persisted(user: User): (r: User)
    ensures r.resume == if user.resume.ResumeFile? then EmptyObject else user.resume
    ensures r.id == user.id && r.email == user.email && r.linkedIn == user.linkedIn
    ensures r.portfolio == user.portfolio && r.industries == user.industries
    ensures r.jobType == user.jobType && r.preferredLocations == user.preferredLocations
  {
    if user.resume.ResumeFile? then user.(resume := EmptyObject) else user
  }

  method SaveUserProfile(store: Store, user: User)
    modifies store`userProfile
    ensures store.userProfile == Some(Persisted(user))
  {
    store.userProfile := Some(Persisted(user));
  }

  method GetUserProfile(store: Store) returns (user: Option<User>)
    ensures user == store.userProfile
  {
    user := store.userProfile;
  }

  /** A saved profile reads back as it was exactly when it holds no uploaded file, and saving
      what was read back changes nothing. */
  lemma ProfileRoundTrip(user: User)
    ensures Persisted(user) == user <==> !user.resume.ResumeFile?
    ensures Persisted(Persisted(user)) == Persisted(user)
  {
    if user.resume.ResumeFile? {
      assert Persisted(user).resume != user.resume;
    }
  }
}
