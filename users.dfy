// The user profile store: an optional profile with an append-only body-weight
// history, and an onboarding flag. Every edit of the profile is a no-op while
// no profile exists.
module Users {
  import opened Types
  import Seqs

  /** A partial User (without id and createdAt): each present field overrides the profile's own. */
  datatype UserPatch = UserPatch(
    name: Option<string>,
    weight: Option<real>,
    height: Option<real>,
    birthDate: Option<string>,
    goal: Option<Goal>,
    weightHistory: Option<seq<WeightEntry>>)

  /** {...user, ...updates}: the patch cannot reach the id or the creation time, and an empty patch changes nothing. */
  function ApplyUserPatch(u: User, p: UserPatch): (r: User)
    ensures r.id == u.id && r.createdAt == u.createdAt
    ensures r.name == (if p.name.Some? then p.name.value else u.name)
    ensures r.weight == (if p.weight.Some? then p.weight.value else u.weight)
    ensures r.height == (if p.height.Some? then p.height.value else u.height)
    ensures r.birthDate == (if p.birthDate.Some? then p.birthDate else u.birthDate)
    ensures r.goal == (if p.goal.Some? then p.goal.value else u.goal)
    ensures r.weightHistory == (if p.weightHistory.Some? then p.weightHistory.value else u.weightHistory)
    ensures p == UserPatch(None, None, None, None, None, None) ==> r == u
  {
    u.(name := if p.name.Some? then p.name.value else u.name,
       weight := if p.weight.Some? then p.weight.value else u.weight,
       height := if p.height.Some? then p.height.value else u.height,
       birthDate := if p.birthDate.Some? then p.birthDate else u.birthDate,
       goal := if p.goal.Some? then p.goal.value else u.goal,
       weightHistory := if p.weightHistory.Some? then p.weightHistory.value else u.weightHistory)
  }

  /** Keeps the entries not logged at `date`, as deleteWeightEntry does. */
  function WithoutDate(history: seq<WeightEntry>, date: int): (r: seq<WeightEntry>)
    ensures forall k :: 0 <= k < |r| ==> r[k].date != date
  {
    Seqs.Filter(history, (e: WeightEntry) => e.date != date)
  }

  /** Logging a weight at an instant the history does not hold yet, then deleting
      that instant, gives back the original history. */
  lemma AddThenDeleteRestoresHistory(history: seq<WeightEntry>, now: int, weight: real)
    requires forall k :: 0 <= k < |history| ==> history[k].date != now
    ensures WithoutDate(history + [WeightEntry(now, weight)], now) == history
  {
    var keep := (e: WeightEntry) => e.date != now;
    Seqs.FilterAppend(history, [WeightEntry(now, weight)], keep);
    Seqs.FilterKeepsAll(history, keep);
    assert Seqs.Filter([WeightEntry(now, weight)], keep) == [];
  }

  class UserStore {
    var user: Option<User>
    var isOnboarded: bool

    constructor()
      ensures user.None? && !isOnboarded
    {
      user := None;
      isOnboarded := false;
    }

    /** Creates the profile, created at `now` with a one-entry weight history, and marks onboarding done. */
    method CreateUser(name: string, weight: real, height: real, goal: Goal, birthDate: Option<string>, freshId: Id, now: int)
      modifies this
      ensures user == Some(User(freshId, name, weight, height, birthDate, goal, now, [WeightEntry(now, weight)]))
      ensures isOnboarded
    {
      user := Some(User(freshId, name, weight, height, birthDate, goal, now, [WeightEntry(now, weight)]));
      isOnboarded := true;
    }

    /** Merges `updates` into the profile; id and creation time never change. */
    method UpdateUser(updates: UserPatch)
      modifies this
      ensures isOnboarded == old(isOnboarded)
      ensures old(user).None? ==> user.None?
      ensures old(user).Some? ==> user == Some(ApplyUserPatch(old(user).value, updates))
      ensures old(user).Some? ==> user.Some? && user.value.id == old(user).value.id && user.value.createdAt == old(user).value.createdAt
    {
      if user.None? {
        return;
      }
      user := Some(ApplyUserPatch(user.value, updates));
    }

    /** Logs a body weight at `now`: one entry appended, and the profile's current weight set to it. */
    method AddWeightEntry(weight: real, now: int)
      modifies this
      ensures isOnboarded == old(isOnboarded)
      ensures old(user).None? ==> user.None?
      ensures old(user).Some? ==>
        var u := old(user).value;
        user == Some(u.(weight := weight, weightHistory := u.weightHistory + [WeightEntry(now, weight)]))
    {
      if user.None? {
        return;
      }
      var u := user.value;
      var entry := WeightEntry(now, weight);
      user := Some(u.(weight := weight, weightHistory := u.weightHistory + [entry]));
    }

    /** Drops every entry logged at exactly `date`, keeping the others in order; the current weight is kept. */
    method DeleteWeightEntry(date: int)
      modifies this
      ensures isOnboarded == old(isOnboarded)
      ensures old(user).None? ==> user.None?
      ensures old(user).Some? ==>
        var u := old(user).value;
        user == Some(u.(weightHistory := WithoutDate(u.weightHistory, date)))
    {
      if user.None? {
        return;
      }
      var u := user.value;
      user := Some(u.(weightHistory := WithoutDate(u.weightHistory, date)));
    }

    method SetOnboarded(value: bool)
      modifies this
      ensures isOnboarded == value && user == old(user)
    {
      isOnboarded := value;
    }
  }
}
