/** The entities of the job feed (src/types/index.ts) and the browser's key-value store,
    which holds one typed slot per key the application uses. */
module Types {

  datatype Option<+T> = None | Some(value: T)

  /** One data row of a markdown job table, before normalisation. */
  datatype ParsedJobEntry = ParsedJobEntry(
    company: string,
    position: string,
    location: string,
    salary: Option<string>,
    link: string,
    age: string)

  datatype JobType = Intern | FullTime | PartTime | RemoteJob

  /** One of the five positions of a description template list. */
  type TemplateIndex = k: nat | k < 5

  /** A generated job description, kept as the template it was rendered from and the values
      filled into it; Normalizer.JobText spells out the text. */
  datatype JobBlurb = JobBlurb(template: TemplateIndex, company: string, isIntern: bool)

  /** A generated company description, kept the same way; Normalizer.CompanyText spells out
      the text. */
  datatype CompanyBlurb = CompanyBlurb(template: TemplateIndex, company: string)

  /** A normalised listing; `postedDate` is the clock reading in milliseconds. */
  datatype Job = Job(
    id: string,
    title: string,
    company: string,
    location: string,
    jobType: JobType,
    description: JobBlurb,
    requirements: seq<string>,
    tags: seq<string>,
    salary: Option<string>,
    logo: Option<string>,
    postedDate: int,
    companyDescription: Option<CompanyBlurb>)

  datatype ApplicationStatus = Applied | Interested | NotInterested

  /** `appliedAt` is a clock reading in milliseconds. */
  datatype JobApplication = JobApplication(jobId: string, status: ApplicationStatus, appliedAt: int)

  /** The `resume` field of a profile: absent, null, an uploaded file, or the empty plain
      object that a file turns into once the profile has been through JSON. */
  datatype Resume = NoResume | NullResume | ResumeFile(name: string) | EmptyObject

  datatype User = User(
    id: string,
    email: string,
    linkedIn: Option<string>,
    portfolio: Option<string>,
    resume: Resume,
    industries: seq<string>,
    jobType: JobType,
    preferredLocations: seq<string>)

  /** The value stored under the job-cache key. */
  datatype CacheEntry = CacheEntry(jobs: seq<Job>, timestamp: int)

  /** The browser's localStorage, one slot per key: `jame_user_profile`,
      `jame_applications` and `github_jobs_cache`. An empty slot is `None`. */
  class Store {
    var userProfile: Option<User>
    var applications: Option<seq<JobApplication>>
    var jobsCache: Option<CacheEntry>

    constructor ()
      ensures userProfile == None && applications == None && jobsCache == None
    {
      userProfile := None;
      applications := None;
      jobsCache := None;
    }
  }
}
