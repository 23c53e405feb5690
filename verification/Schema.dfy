/** The tables and Redis keys the session workers share, as values, and the
    object that holds them.

    Rows are keyed by their primary key.  Text columns that the code only ever
    compares with a fixed set of words are enumerations; `StatusText` keeps the
    one distinction the code makes between two spellings of a word. */
module Schema {

  datatype Option<+T> = None | Some(value: T)

  datatype Status = Upcoming | Opening | Live | Completed | TimeReached | Cancelled

  /** `sessions.status`: `kind` is the word up to letter case, `exact` tells
      whether it is spelled in lower case, as the code itself writes it.
      `LOWER(status) = 'live'` looks at `kind` only, `status === 'live'` at both. */
  datatype StatusText = StatusText(kind: Status, exact: bool)

  function Written(kind: Status): StatusText { StatusText(kind, true) }

  /** The order in which a session moves through its life. */
  function Rank(k: Status): nat {
    match k
    case Upcoming => 0
    case Opening => 1
    case Live => 2
    case _ => 3
  }

  /** `session_duration_unit` after trimming and lower-casing, singular and plural alike. */
  datatype DurationUnit = Seconds | Minutes | Hours | Days | Years | UnknownUnit

  datatype Profile = Profile(
    maxSlots: int,
    maxSessions: Option<int>,
    sessionsCount: int,
    salesTrigger: Option<int>,
    durationValue: Option<int>,
    durationUnit: Option<DurationUnit>,
    priority: int,
    isActive: bool,
    isDeleted: bool)

  datatype Session = Session(
    profile: int,
    number: int,
    status: StatusText,
    startTime: Option<int>,
    endTime: Option<int>,
    createdAt: Option<int>,
    priority: int,
    isActive: bool,
    isDeleted: bool,
    forceStop: bool,
    sales: int,
    participants: int)

  /** `Winner` stands for the three spellings that `getUserWinCountForSession` accepts. */
  datatype CouponStatus = Winner | AppliedLate | Expired | OtherCouponStatus

  datatype Coupon = Coupon(
    session: Option<int>,
    user: int,
    term: Option<int>,
    order: Option<int>,
    status: CouponStatus,
    appliedAt: Option<int>,
    position: Option<int>,
    isValid: bool,
    isRedeemed: bool)

  /** A `session_rewards` row; its reward columns are copied from `profile`. */
  datatype Reward = Reward(session: int, user: int, coupon: int, profile: int)

  /** What `parseInt` makes of a Redis value. */
  datatype Text = Number(n: int) | NotANumber

  /** One state of the database and of Redis.  `applied` holds the keys
      `session:applied:{id}`, `sales` the keys `session:sales:{id}`. */
  datatype World = World(
    profiles: map<int, Profile>,
    sessions: map<int, Session>,
    coupons: map<int, Coupon>,
    rewards: seq<Reward>,
    applied: map<int, int>,
    sales: map<int, Text>)

  /** A Redis integer key that does not exist reads as zero. */
  function Counter(m: map<int, int>, key: int): int {
    if key in m then m[key] else 0
  }

  /** The mutable store the handlers run against. */
  class Store {
    var profiles: map<int, Profile>
    var sessions: map<int, Session>
    var coupons: map<int, Coupon>
    var rewards: seq<Reward>
    var applied: map<int, int>
    var sales: map<int, Text>

    function W(): World
      reads this
    {
      World(profiles, sessions, coupons, rewards, applied, sales)
    }

    constructor (w: World)
      ensures W() == w
    {
      profiles, sessions, coupons := w.profiles, w.sessions, w.coupons;
      rewards, applied, sales := w.rewards, w.applied, w.sales;
    }
  }
}
