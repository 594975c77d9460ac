/** The database: one sequence per collection, in insertion order. */
module Store {
  import opened Base
  import opened UserModel
  import opened BusinessModel
  import opened JobModel
  import opened ApplicationModel
  import opened MessageModel
  import opened NotificationModel
  import opened EmailAttemptModel

  /** A job category (only its id and name are read). */
  datatype Category = Category(id: Id, name: string)

  datatype Db = Db(
    users: seq<User>,
    businesses: seq<Business>,
    jobs: seq<Job>,
    apps: seq<Application>,
    messages: seq<Message>,
    notifications: seq<Notification>,
    attempts: seq<Attempt>,
    categories: seq<Category>)

  function FindUser(db: Db, id: Id): (r: Option<User>)
    ensures r.Some? ==> r.value.id == id && r.value in db.users
    ensures r.None? <==> forall i :: 0 <= i < |db.users| ==> db.users[i].id != id
  {
    FindFirst(db.users, (u: User) => u.id == id)
  }

  function FindBusiness(db: Db, id: Id): (r: Option<Business>)
    ensures r.Some? ==> r.value.id == id && r.value in db.businesses
    ensures r.None? <==> forall i :: 0 <= i < |db.businesses| ==> db.businesses[i].id != id
  {
    FindFirst(db.businesses, (b: Business) => b.id == id)
  }

  function FindJob(db: Db, id: Id): (r: Option<Job>)
    ensures r.Some? ==> r.value.id == id && r.value in db.jobs
    ensures r.None? <==> forall i :: 0 <= i < |db.jobs| ==> db.jobs[i].id != id
  {
    FindFirst(db.jobs, (j: Job) => j.id == id)
  }

  function FindApp(db: Db, id: Id): (r: Option<Application>)
    ensures r.Some? ==> r.value.id == id && r.value in db.apps
    ensures r.None? <==> forall i :: 0 <= i < |db.apps| ==> db.apps[i].id != id
  {
    FindFirst(db.apps, (a: Application) => a.id == id)
  }

  function FindCategory(db: Db, id: Id): (r: Option<Category>)
    ensures r.Some? ==> r.value.id == id && r.value in db.categories
    ensures r.None? <==> forall i :: 0 <= i < |db.categories| ==> db.categories[i].id != id
  {
    FindFirst(db.categories, (c: Category) => c.id == id)
  }

  /** The ids of all categories (the set the interest validator checks
      against). */
  function CategoryIds(db: Db): set<Id> {
    set c | c in db.categories :: c.id
  }

  /** The ids of the jobs a business owns (`getBusinessJobs`). */
  function BusinessJobIds(db: Db, businessId: Id): (r: set<Id>)
    ensures forall j :: j in db.jobs && j.businessId == businessId ==> j.id in r
    ensures forall id :: id in r ==> exists j :: j in db.jobs && j.businessId == businessId && j.id == id
  {
    set j | j in db.jobs && j.businessId == businessId :: j.id
  }
}
