/** The document store of the waste-tracking backend: one datatype per record
    kind of schema.ts, the closed enumerations it declares, and a `Store`
    class holding one table per record kind.

    Tables other than `users` are sequences: a document's id is its position,
    so insertion appends and `_creationTime` order is index order (nothing in
    the modelled backend deletes a document). The `users` table belongs to the
    authentication library and is a map from the caller's user id. */
module Schema {

  datatype Option<+T> = None | Some(value: T)

  /** The exceptions the mutations throw, and the one Convex's `.unique()`
      throws when more than one document matches. */
  datatype Error =
    | NotAuthenticated
    | RewardNotFound
    | RewardAlreadyClaimed
    | BinNotFound
    | NotificationNotFound
    | ProfileNotUnique

  datatype Result<+T> = Ok(value: T) | Err(error: Error)

  /** The message each thrown `Error` carries. */
  function Message(e: Error): string
  {
    match e
    case NotAuthenticated => "Not authenticated"
    case RewardNotFound => "Reward not found"
    case RewardAlreadyClaimed => "Reward already claimed"
    case BinNotFound => "Bin not found"
    case NotificationNotFound => "Notification not found"
    case ProfileNotUnique => "unique() query returned more than one document"
  }

  type UserId = nat
  type StorageId = nat

  /** A document as a query returns it: its id in its table and its fields. */
  datatype Doc<+T> = Doc(id: nat, value: T)

  datatype WasteType = Plastic | Organic | Paper | Glass | Metal | Electronic

  function WasteTypeName(t: WasteType): string
  {
    match t
    case Plastic => "plastic"
    case Organic => "organic"
    case Paper => "paper"
    case Glass => "glass"
    case Metal => "metal"
    case Electronic => "electronic"
  }

  datatype Role = Resident | Admin
  datatype Mode = Adult | Child
  datatype Theme = Light | Dark
  datatype Preferences = Preferences(notifications: bool, theme: Theme)

  /** A record of the authentication library's users table (the fields the
      application reads through object spreads). */
  datatype User = User(name: Option<string>, email: Option<string>, isAnonymous: Option<bool>)

  datatype UserProfile = UserProfile(
    userId: UserId,
    role: Role,
    mode: Mode,
    totalPoints: int,
    level: int,
    preferences: Preferences)

  /** The uniqueness the `by_user` profile lookups rely on: at most one
      profile per user. */
  ghost predicate OneProfilePerUser(profiles: seq<UserProfile>)
  {
    forall i, j :: 0 <= i < j < |profiles| ==> profiles[i].userId != profiles[j].userId
  }

  datatype WasteEntry = WasteEntry(
    userId: UserId,
    wasteType: WasteType,
    weight: real,
    points: int,
    co2Saved: real,
    landfillReduced: real,
    imageId: Option<StorageId>,
    aiClassified: bool,
    aiConfidence: Option<real>,
    location: Option<string>)

  datatype RewardCategory = Daily | Weekly | Milestone | Special

  datatype Reward = Reward(
    userId: UserId,
    title: string,
    description: string,
    points: int,
    category: RewardCategory,
    claimed: bool)

  datatype BinStatus = Normal | Warning | Full | Maintenance

  datatype Bin = Bin(
    location: string,
    wasteType: WasteType,
    capacity: real,
    currentLevel: real,
    lastCollection: real,
    sensorId: string,
    status: BinStatus)

  datatype NotificationType = Reminder | Achievement | Alert | Tip

  datatype Notification = Notification(
    userId: UserId,
    title: string,
    message: string,
    kind: NotificationType,
    read: bool,
    scheduledFor: Option<real>)

  /** Eco-fact categories: the five sorted materials (no electronic) and general. */
  datatype FactCategory = Plastic | Organic | Paper | Glass | Metal | General

  datatype EcoFact = EcoFact(fact: string, category: FactCategory, forChildren: bool, icon: string)

  datatype ClassifierSample = ClassifierSample(
    imageId: StorageId,
    actualType: WasteType,
    predictedType: Option<WasteType>,
    confidence: Option<real>,
    features: seq<real>,
    verified: bool)

  /** The database: one table per record kind. */
  class Store {
    var users: map<UserId, User>
    var userProfiles: seq<UserProfile>
    var wasteEntries: seq<WasteEntry>
    var rewards: seq<Reward>
    var bins: seq<Bin>
    var notifications: seq<Notification>
    var ecoFacts: seq<EcoFact>
    var classifierData: seq<ClassifierSample>

    /** A database whose only documents are the given accounts. */
    constructor (accounts: map<UserId, User>)
      ensures users == accounts
      ensures userProfiles == [] && wasteEntries == [] && rewards == []
      ensures bins == [] && notifications == [] && ecoFacts == [] && classifierData == []
    {
      users := accounts;
      userProfiles, wasteEntries, rewards := [], [], [];
      bins, notifications, ecoFacts, classifierData := [], [], [], [];
    }
  }
}
