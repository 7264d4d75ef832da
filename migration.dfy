/**
 * migrate_users.py: walk Keycloak's users and, for each one not yet
 * tagged, ask whether to tag it as managed by the provisioner.
 *
 * The array `users` stands for the user list as Keycloak holds it: a tag
 * written locally is the one `update_user` sends. The operator's replies
 * to `input()` are the sequence `answers`; running out of replies is
 * `input()` raising `EOFError`, which ends the script.
 */
module Migration {

  import opened Wrappers
  import opened Text

  /** A Keycloak attribute map: each key holds a list of strings. */
  type Attributes = map<string, seq<string>>

  datatype KcUser = KcUser(id: string, username: Option<string>, email: Option<string>, attributes: Attributes)

  const ManagedByKey: string := "managed-by"
  const ProvisionedKey: string := "provisioned"
  const ProvisionerTag: seq<string> := ["k8s-provisioner"]
  const ProvisionedTag: seq<string> := ["true"]

  /**
   * `attributes.get('managed-by') == ['k8s-provisioner']`: the key must hold
   * exactly the one-element list; a longer list that merely contains the
   * tag does not count.
   */
  predicate IsTagged(u: KcUser): (r: bool)
    ensures r <==> ManagedByKey in u.attributes && |u.attributes[ManagedByKey]| == 1
                   && u.attributes[ManagedByKey][0] == "k8s-provisioner"
  {
    ManagedByKey in u.attributes && u.attributes[ManagedByKey] == ProvisionerTag
  }

  /** The attributes a `y` answer sends: the two tags set, every other key as it was. */
  function Tag(u: KcUser): (t: KcUser)
    ensures IsTagged(t)
    ensures ProvisionedKey in t.attributes && t.attributes[ProvisionedKey] == ProvisionedTag
    ensures t.attributes.Keys == u.attributes.Keys + {ManagedByKey, ProvisionedKey}
    ensures forall k :: k in u.attributes && k != ManagedByKey && k != ProvisionedKey ==> t.attributes[k] == u.attributes[k]
    ensures t.id == u.id && t.username == u.username && t.email == u.email
    ensures !IsTagged(u) ==> t != u
  {
    u.(attributes := u.attributes[ManagedByKey := ProvisionerTag][ProvisionedKey := ProvisionedTag])
  }

  datatype Answer = Yes | No | Quit

  /** A reply, lower-cased, is one of `y`, `n`, `q`, or is asked again. */
  function Decode(response: string): (a: Option<Answer>)
    ensures a == Some(Yes) <==> Lower(response) == "y"
    ensures a == Some(No) <==> Lower(response) == "n"
    ensures a == Some(Quit) <==> Lower(response) == "q"
  {
    var r := Lower(response);
    if r == "y" then Some(Yes) else if r == "n" then Some(No) else if r == "q" then Some(Quit) else None
  }

  /**
   * The prompt loop from reply `pos` on: the first valid answer and the
   * position just after it, all replies before it being discarded; `None`
   * when the replies run out first.
   */
  function NextAnswer(answers: seq<string>, pos: nat): (r: Option<(Answer, nat)>)
    requires pos <= |answers|
    decreases |answers| - pos
    ensures r.Some? ==> pos < r.value.1 <= |answers| && Decode(answers[r.value.1 - 1]) == Some(r.value.0)
    ensures r.Some? ==> forall j :: pos <= j < r.value.1 - 1 ==> Decode(answers[j]).None?
    ensures r.None? ==> forall j :: pos <= j < |answers| ==> Decode(answers[j]).None?
  {
    if pos == |answers| then None
    else match Decode(answers[pos])
      case Some(a) => Some((a, pos + 1))
      case None => NextAnswer(answers, pos + 1)
  }

  /** How the walk ended: the list exhausted, `q`, or `input()` raising at the end of the replies. */
  datatype End = Finished | Quitted | OutOfAnswers

  /** The users afterwards, the two counters, how many replies were read, and how the walk ended. */
  datatype Run = Run(users: seq<KcUser>, migrated: nat, skipped: nat, next: nat, end: End)

  /** The walk from user `i` and reply `pos` on, with the counters so far. */
  function MigrateFrom(users: seq<KcUser>, i: nat, answers: seq<string>, pos: nat, migrated: nat, skipped: nat): (r: Run)
    requires i <= |users| && pos <= |answers|
    decreases |users| - i
    ensures |r.users| == |users| && pos <= r.next <= |answers|
    ensures migrated <= r.migrated && skipped <= r.skipped
    ensures r.end == OutOfAnswers ==> r.next == |answers|
  {
    if i == |users| then Run(users, migrated, skipped, pos, Finished)
    else if IsTagged(users[i]) then MigrateFrom(users, i + 1, answers, pos, migrated, skipped + 1)
    else match NextAnswer(answers, pos)
      case None => Run(users, migrated, skipped, |answers|, OutOfAnswers)
      case Some((a, k)) =>
        match a
        case Quit => Run(users, migrated, skipped, k, Quitted)
        case Yes => MigrateFrom(users[i := Tag(users[i])], i + 1, answers, k, migrated + 1, skipped)
        case No => MigrateFrom(users, i + 1, answers, k, migrated, skipped + 1)
  }

  /** `migrate_users()` on a user list and a sequence of replies. */
  function Migrate(users: seq<KcUser>, answers: seq<string>): (r: Run)
    ensures |r.users| == |users| && r.next <= |answers|
    ensures r.end == OutOfAnswers ==> r.next == |answers|
  {
    MigrateFrom(users, 0, answers, 0, 0, 0)
  }

  /** How many positions differ between two user lists of the same length. */
  function ChangedCount(before: seq<KcUser>, after: seq<KcUser>): (n: nat)
    requires |before| == |after|
    ensures n <= |before|
    ensures n == 0 <==> before == after
  {
    if before == [] then 0
    else
      var rest := ChangedCount(before[1..], after[1..]);
      assert before == [before[0]] + before[1..] && after == [after[0]] + after[1..];
      (if before[0] != after[0] then 1 else 0) + rest
  }

  /** Changing position `i` of `before` to the value `after` has there removes exactly one difference. */
  lemma {:induction false} ChangedCountUpdate(before: seq<KcUser>, after: seq<KcUser>, i: nat, x: KcUser)
    requires |before| == |after| && i < |before|
    requires after[i] == x && before[i] != x
    ensures ChangedCount(before, after) == ChangedCount(before[i := x], after) + 1
  {
    if i > 0 {
      assert before[i := x][1..] == before[1..][i - 1 := x];
      ChangedCountUpdate(before[1..], after[1..], i - 1, x);
    } else {
      assert before[i := x][1..] == before[1..];
    }
  }

  /**
   * The counters of a walk that starts at user `i` with `i` users counted:
   * every user visited is counted once, and all of them are exactly when
   * the walk reached the end of the list.
   */
  lemma {:induction false} MigrateFromCounts(users: seq<KcUser>, i: nat, answers: seq<string>, pos: nat, migrated: nat, skipped: nat)
    requires i <= |users| && pos <= |answers| && migrated + skipped == i
    decreases |users| - i
    ensures var r := MigrateFrom(users, i, answers, pos, migrated, skipped);
            |r.users| == |users| && pos <= r.next <= |answers| &&
            migrated <= r.migrated && skipped <= r.skipped &&
            r.migrated + r.skipped <= |users| &&
            (r.end == Finished <==> r.migrated + r.skipped == |users|)
  {
    if i < |users| {
      if IsTagged(users[i]) {
        MigrateFromCounts(users, i + 1, answers, pos, migrated, skipped + 1);
      } else {
        match NextAnswer(answers, pos)
        case None =>
        case Some((a, k)) =>
          match a
          case Quit =>
          case Yes => MigrateFromCounts(users[i := Tag(users[i])], i + 1, answers, k, migrated + 1, skipped);
          case No => MigrateFromCounts(users, i + 1, answers, k, migrated, skipped + 1);
      }
    }
  }

  /**
   * What a walk from user `i` does to the list: the users before `i` are
   * untouched, and each later user is either left as it was or, when it
   * was untagged, tagged.
   */
  lemma {:induction false} MigrateFromShape(users: seq<KcUser>, i: nat, answers: seq<string>, pos: nat, migrated: nat, skipped: nat)
    requires i <= |users| && pos <= |answers|
    decreases |users| - i
    ensures var r := MigrateFrom(users, i, answers, pos, migrated, skipped);
            |r.users| == |users| &&
            (forall j :: 0 <= j < i ==> r.users[j] == users[j]) &&
            (forall j :: i <= j < |users| ==> r.users[j] == users[j] || (!IsTagged(users[j]) && r.users[j] == Tag(users[j])))
  {
    if i < |users| {
      if IsTagged(users[i]) {
        MigrateFromShape(users, i + 1, answers, pos, migrated, skipped + 1);
      } else {
        match NextAnswer(answers, pos)
        case None =>
        case Some((a, k)) =>
          match a
          case Quit =>
          case Yes =>
            var tagged := users[i := Tag(users[i])];
            assert MigrateFrom(users, i, answers, pos, migrated, skipped) == MigrateFrom(tagged, i + 1, answers, k, migrated + 1, skipped);
            MigrateFromShape(tagged, i + 1, answers, k, migrated + 1, skipped);
          case No =>
            MigrateFromShape(users, i + 1, answers, k, migrated, skipped + 1);
      }
    }
  }

  /** Tagging the untagged user `i` accounts for one of the walk's changes and one `migrated`. */
  lemma TaggedStepChanged(users: seq<KcUser>, i: nat, r: Run, migrated: nat)
    requires i < |users| && !IsTagged(users[i])
    requires |r.users| == |users| && r.users[i] == Tag(users[i])
    requires r.migrated == migrated + 1 + ChangedCount(users[i := Tag(users[i])], r.users)
    ensures r.migrated == migrated + ChangedCount(users, r.users)
  {
    ChangedCountUpdate(users, r.users, i, Tag(users[i]));
  }

  /** `migrated` grows by exactly the number of users the walk changes. */
  lemma {:induction false} MigrateFromChanged(users: seq<KcUser>, i: nat, answers: seq<string>, pos: nat, migrated: nat, skipped: nat)
    requires i <= |users| && pos <= |answers|
    decreases |users| - i
    ensures var r := MigrateFrom(users, i, answers, pos, migrated, skipped);
            |r.users| == |users| && r.migrated == migrated + ChangedCount(users, r.users)
  {
    if i < |users| {
      if IsTagged(users[i]) {
        MigrateFromChanged(users, i + 1, answers, pos, migrated, skipped + 1);
      } else {
        match NextAnswer(answers, pos)
        case None =>
        case Some((a, k)) =>
          match a
          case Quit =>
          case Yes =>
            var tagged := users[i := Tag(users[i])];
            assert MigrateFrom(users, i, answers, pos, migrated, skipped) == MigrateFrom(tagged, i + 1, answers, k, migrated + 1, skipped);
            MigrateFromChanged(tagged, i + 1, answers, k, migrated + 1, skipped);
            MigrateFromShape(tagged, i + 1, answers, k, migrated + 1, skipped);
            TaggedStepChanged(users, i, MigrateFrom(tagged, i + 1, answers, k, migrated + 1, skipped), migrated);
          case No =>
            MigrateFromChanged(users, i + 1, answers, k, migrated, skipped + 1);
      }
    }
  }

  /**
   * A walk that ends early (on `q` or at the end of the replies) stops at
   * an untagged user: that user and every later one are neither changed
   * nor counted.
   */
  lemma {:induction false} MigrateFromStops(users: seq<KcUser>, i: nat, answers: seq<string>, pos: nat, migrated: nat, skipped: nat)
    requires i <= |users| && pos <= |answers| && migrated + skipped == i
    decreases |users| - i
    ensures var r := MigrateFrom(users, i, answers, pos, migrated, skipped);
            var stop := r.migrated + r.skipped;
            r.end != Finished ==>
              i <= stop < |users| && |r.users| == |users| && !IsTagged(users[stop]) && r.users[stop..] == users[stop..]
  {
    if i < |users| {
      if IsTagged(users[i]) {
        MigrateFromStops(users, i + 1, answers, pos, migrated, skipped + 1);
      } else {
        match NextAnswer(answers, pos)
        case None =>
        case Some((a, k)) =>
          match a
          case Quit =>
          case Yes =>
            var tagged := users[i := Tag(users[i])];
            MigrateFromStops(tagged, i + 1, answers, k, migrated + 1, skipped);
            assert tagged[i + 1..] == users[i + 1..];
          case No =>
            MigrateFromStops(users, i + 1, answers, k, migrated, skipped + 1);
      }
    }
  }

  /** When every user from `i` on is already tagged, the walk reads no reply, changes nothing and counts them all as skipped. */
  lemma {:induction false} MigrateFromAllTagged(users: seq<KcUser>, i: nat, answers: seq<string>, pos: nat, migrated: nat, skipped: nat)
    requires i <= |users| && pos <= |answers|
    requires forall j :: i <= j < |users| ==> IsTagged(users[j])
    decreases |users| - i
    ensures MigrateFrom(users, i, answers, pos, migrated, skipped) == Run(users, migrated, skipped + (|users| - i), pos, Finished)
  {
    if i < |users| {
      MigrateFromAllTagged(users, i + 1, answers, pos, migrated, skipped + 1);
    }
  }

  /** `migrated + skipped` never exceeds the number of users, and equals it exactly when no early stop happened. */
  lemma MigrateCounts(users: seq<KcUser>, answers: seq<string>)
    ensures var r := Migrate(users, answers);
            r.migrated + r.skipped <= |users| && (r.end == Finished <==> r.migrated + r.skipped == |users|)
  {
    MigrateFromCounts(users, 0, answers, 0, 0, 0);
  }

  /**
   * Only untagged users are changed, each into its tagged form, and
   * `migrated` is the number of users changed: every `y` tags a distinct
   * user, once.
   */
  lemma MigrateUpdates(users: seq<KcUser>, answers: seq<string>)
    ensures var r := Migrate(users, answers);
            |r.users| == |users| &&
            (forall j :: 0 <= j < |users| ==> r.users[j] == users[j] || (!IsTagged(users[j]) && r.users[j] == Tag(users[j]))) &&
            r.migrated == ChangedCount(users, r.users)
  {
    MigrateFromShape(users, 0, answers, 0, 0, 0);
    MigrateFromChanged(users, 0, answers, 0, 0, 0);
  }

  /** On `q` (or when the replies run out) the user being asked and all later users are neither updated nor counted. */
  lemma MigrateStops(users: seq<KcUser>, answers: seq<string>)
    ensures var r := Migrate(users, answers);
            var stop := r.migrated + r.skipped;
            r.end != Finished ==>
              stop < |users| && |r.users| == |users| && !IsTagged(users[stop]) && r.users[stop..] == users[stop..]
  {
    MigrateFromStops(users, 0, answers, 0, 0, 0);
  }

  /** A list whose users are all tagged is walked without a single prompt. */
  lemma MigrateAllTagged(users: seq<KcUser>, answers: seq<string>)
    requires forall j :: 0 <= j < |users| ==> IsTagged(users[j])
    ensures Migrate(users, answers) == Run(users, 0, |users|, 0, Finished)
  {
    MigrateFromAllTagged(users, 0, answers, 0, 0, 0);
  }

  /**
   * One step of the walk. A tagged user is skipped without reading a
   * reply. At an untagged user the prompt's answer decides: `q` ends the
   * walk there; `y` tags the user and counts it as migrated; `n` leaves it
   * and counts it as skipped.
   */
  lemma MigrateFromStep(users: seq<KcUser>, i: nat, answers: seq<string>, pos: nat, migrated: nat, skipped: nat)
    requires i < |users| && pos <= |answers|
    ensures IsTagged(users[i]) ==>
              MigrateFrom(users, i, answers, pos, migrated, skipped) == MigrateFrom(users, i + 1, answers, pos, migrated, skipped + 1)
    ensures !IsTagged(users[i]) ==> NextAnswer(answers, pos).None? ==>
              MigrateFrom(users, i, answers, pos, migrated, skipped) == Run(users, migrated, skipped, |answers|, OutOfAnswers)
    ensures forall k :: !IsTagged(users[i]) && NextAnswer(answers, pos) == Some((Quit, k)) ==>
              MigrateFrom(users, i, answers, pos, migrated, skipped) == Run(users, migrated, skipped, k, Quitted)
    ensures forall k :: !IsTagged(users[i]) && NextAnswer(answers, pos) == Some((Yes, k)) ==>
              MigrateFrom(users, i, answers, pos, migrated, skipped) == MigrateFrom(users[i := Tag(users[i])], i + 1, answers, k, migrated + 1, skipped)
    ensures forall k :: !IsTagged(users[i]) && NextAnswer(answers, pos) == Some((No, k)) ==>
              MigrateFrom(users, i, answers, pos, migrated, skipped) == MigrateFrom(users, i + 1, answers, k, migrated, skipped + 1)
  {
  }

  /**
   * The prompt of `migrate_users()`: read replies from `pos` on until one
   * is `y`, `n` or `q`. `None` means the replies ran out, where `input()`
   * raises.
   */
  method Prompt(answers: seq<string>, pos: nat) returns (response: Option<Answer>, next: nat)
    requires pos <= |answers|
    ensures NextAnswer(answers, pos) == if response.Some? then Some((response.value, next)) else None
    ensures response.None? ==> next == |answers|
  {
    next := pos;
    response := None;
    while response.None? && next < |answers|
      invariant pos <= next <= |answers|
      invariant response.None? ==> NextAnswer(answers, next) == NextAnswer(answers, pos)
      invariant response.Some? ==> NextAnswer(answers, pos) == Some((response.value, next))
      decreases |answers| - next
    {
      response := Decode(answers[next]);
      next := next + 1;
    }
  }

  /** The loop of `migrate_users()`. */
  method MigrateUsers(users: array<KcUser>, answers: seq<string>)
    returns (migrated: nat, skipped: nat, next: nat, end: End)
    modifies users
    ensures Run(users[..], migrated, skipped, next, end) == Migrate(old(users[..]), answers)
    ensures migrated + skipped <= users.Length
    ensures end == Finished <==> migrated + skipped == users.Length
    ensures migrated == ChangedCount(old(users[..]), users[..])
  {
    migrated, skipped, next, end := 0, 0, 0, Finished;
    var i := 0;
    while i < users.Length
      invariant 0 <= i <= users.Length && next <= |answers|
      invariant MigrateFrom(users[..], i, answers, next, migrated, skipped) == Migrate(old(users[..]), answers)
    {
      ghost var current := users[..];
      var user := users[i];
      if IsTagged(user) {
        assert MigrateFrom(current, i, answers, next, migrated, skipped)
            == MigrateFrom(current, i + 1, answers, next, migrated, skipped + 1);
        skipped := skipped + 1;
        i := i + 1;
        continue;
      }
      ghost var start := next;
      var response;
      response, next := Prompt(answers, next);
      if response.None? {
        assert MigrateFrom(current, i, answers, start, migrated, skipped) == Run(current, migrated, skipped, |answers|, OutOfAnswers);
        end := OutOfAnswers;
        MigrateCounts(old(users[..]), answers);
        MigrateUpdates(old(users[..]), answers);
        return;
      }
      if response.value == Quit {
        assert MigrateFrom(current, i, answers, start, migrated, skipped) == Run(current, migrated, skipped, next, Quitted);
        end := Quitted;
        break;
      } else if response.value == Yes {
        assert MigrateFrom(current, i, answers, start, migrated, skipped)
            == MigrateFrom(current[i := Tag(user)], i + 1, answers, next, migrated + 1, skipped);
        users[i] := Tag(user);
        assert users[..] == current[i := Tag(user)];
        migrated := migrated + 1;
      } else {
        assert MigrateFrom(current, i, answers, start, migrated, skipped)
            == MigrateFrom(current, i + 1, answers, next, migrated, skipped + 1);
        skipped := skipped + 1;
      }
      i := i + 1;
    }
    MigrateCounts(old(users[..]), answers);
    MigrateUpdates(old(users[..]), answers);
  }
}
