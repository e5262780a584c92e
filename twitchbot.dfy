/**
 * The privilege rule of twitchbot.py and the one command it gates.
 * A chat user is modelled by the three attributes the rule reads.
 */
module TwitchBot {
  import opened Wrappers

  /** A chat author: display name, moderator flag, and badges (absent as None). */
  datatype User = User(name: string, isMod: bool, badges: Option<map<string, string>>)

  /** Python's `d.get(key, default)`. */
  function GetOr(d: map<string, string>, key: string, default: string): string
  {
    if key in d then d[key] else default
  }

  /** The user carries a "broadcaster" badge whose value is "1". */
  predicate BroadcasterBadge(u: User)
  {
    u.badges.Some? && "broadcaster" in u.badges.value && u.badges.value["broadcaster"] == "1"
  }

  /**
   * Whether a user may use gated commands: moderators always, otherwise
   * only a user whose "broadcaster" badge is "1". No user, or a
   * non-moderator without badges, is not privileged.
   */
  function IsPriv(user: Option<User>): (r: bool)
    ensures user.None? ==> !r
    ensures user.Some? && user.value.isMod ==> r
    ensures user.Some? && !user.value.isMod && user.value.badges.None? ==> !r
    ensures r <==> (user.Some? && (user.value.isMod || BroadcasterBadge(user.value)))
  {
    match user
    case None => false
    case Some(u) =>
      if u.isMod then true
      else match u.badges
        case None => false
        case Some(badges) => GetOr(badges, "broadcaster", "0") == "1"
  }

  /** A non-moderator without a "broadcaster" badge is not privileged, whatever other badges say. */
  lemma MissingBroadcasterBadge(name: string, badges: map<string, string>)
    requires "broadcaster" !in badges
    ensures !IsPriv(Some(User(name, false, Some(badges))))
  {
  }

  /** The `mode` command: a greeting for a privileged author, no reply otherwise. */
  function Mode(author: Option<User>): (reply: Option<string>)
    ensures reply.Some? <==> IsPriv(author)
    ensures reply.Some? ==> reply.value == "Hello " + author.value.name + "!"
  {
    if !IsPriv(author) then None
    else Some("Hello " + author.value.name + "!")
  }
}
