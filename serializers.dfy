/** The validators and computed fields of the account, subscription,
    favorite and cart serializers. Passwords are compared as stored values;
    the password policy is a verdict passed in. */
module Serializers {
  import opened Common
  import opened Text
  import opened Models
  import opened Filters

  // ------------------------------------------------------------------- follow

  datatype FollowError = SelfFollow | AlreadyFollowing

  /** `FollowSerializer.validate`: following oneself is refused first, then
      following somebody already followed. */
  function FollowCheck(subs: seq<Subscription>, subscriber: nat, target: nat): (r: Option<FollowError>)
    ensures r == Some(SelfFollow) <==> subscriber == target
    ensures r == Some(AlreadyFollowing) <==> subscriber != target && Subscription(subscriber, target) in subs
    ensures r.None? <==> subscriber != target && Subscription(subscriber, target) !in subs
  {
    if subscriber == target then Some(SelfFollow)
    else if Subscription(subscriber, target) in subs then Some(AlreadyFollowing)
    else None
  }

  /** A follow the validator lets through keeps the subscription table valid:
      the proposed pair is unique and passes `Subscription.clean`. */
  lemma FollowKeepsSubscriptionsValid(subs: seq<Subscription>, subscriber: nat, target: nat)
    requires SubscriptionsValid(subs)
    requires FollowCheck(subs, subscriber, target).None?
    ensures SubscriptionsValid(subs + [Subscription(subscriber, target)])
  {
    AppendNoDuplicates(subs, Subscription(subscriber, target));
  }

  /** `get_is_followed`: false without a request or for the anonymous user,
      otherwise whether the requesting user follows `target`. */
  function IsSubscribed(request: Option<Viewer>, subs: seq<Subscription>, target: nat): bool {
    request.Some? && request.value.User? && Subscription(request.value.id, target) in subs
  }

  /** After an accepted follow the follower sees `is_subscribed` turn from false
      to true, and nobody else's view of anybody changes. */
  lemma FollowSetsIsSubscribed(subs: seq<Subscription>, subscriber: nat, target: nat)
    requires FollowCheck(subs, subscriber, target).None?
    ensures !IsSubscribed(Some(User(subscriber)), subs, target)
    ensures IsSubscribed(Some(User(subscriber)), subs + [Subscription(subscriber, target)], target)
    ensures forall u: nat, t: nat :: (u, t) != (subscriber, target) ==>
              (IsSubscribed(Some(User(u)), subs + [Subscription(subscriber, target)], t) <==>
               IsSubscribed(Some(User(u)), subs, t))
  {
  }

  /** Without a request, or for the anonymous user, nobody is followed. */
  lemma IsSubscribedNeedsUser(subs: seq<Subscription>, target: nat)
    ensures !IsSubscribed(None, subs, target)
    ensures !IsSubscribed(Some(Anonymous), subs, target)
  {
  }

  /** `get_is_favorited` and `get_is_in_shopping_cart`: the same shape over a
      favorite or cart table. */
  function IsMember(request: Option<Viewer>, rows: seq<Membership>, recipe: nat): bool {
    request.Some? && request.value.User? && Membership(request.value.id, recipe) in rows
  }

  /** The getter and the membership filters agree: for an authenticated
      request the flag is set exactly on the listed recipes a truthy filter
      keeps; an anonymous request is never flagged, and its truthy filter
      keeps the whole listing. */
  lemma IsMemberAgreesWithFilter(rows: seq<Membership>, user: nat, ids: seq<nat>, value: int)
    requires value != 0
    ensures forall id :: id in ids ==>
              (IsMember(Some(User(user)), rows, id) <==> id in FilterMembership(ids, rows, Some(value), User(user)))
    ensures FilterMembership(ids, rows, Some(value), Anonymous) == ids
    ensures forall id :: !IsMember(Some(Anonymous), rows, id) && !IsMember(None, rows, id)
  {
  }

  // ----------------------------------------------------------- change password

  /** A required CharField that is not blank: present, and not all
      whitespace, since the field trims its input before the blank check. */
  predicate Filled(v: Option<string>) {
    v.Some? && Trim(v.value) != ""
  }

  datatype PasswordField = CurrentPassword | NewPassword

  /** `ChangePasswordSerializer`: both fields are required and not blank, the
      proposed one must pass the password policy (`policyOk`); then `validate`
      refuses a current password that does not check, and then a proposed
      password equal to the current one. Each field sees its input trimmed.
      The result is the set of fields in error. */
  function ChangePasswordCheck(stored: string, current: Option<string>, proposed: Option<string>, policyOk: bool): set<PasswordField> {
    var fieldErrors :=
      (if !Filled(current) then {CurrentPassword} else {})
      + (if !Filled(proposed) || !policyOk then {NewPassword} else {});
    if fieldErrors != {} then fieldErrors
    else if Trim(current.value) != stored then {CurrentPassword}
    else if Trim(proposed.value) == Trim(current.value) then {NewPassword}
    else {}
  }

  /** The change is accepted exactly when the current password, trimmed, is
      the stored one, and a proposed password passing the policy is given
      that, trimmed, is neither blank nor the stored one. A blank current
      password is an error under `current_password`, and so is a wrong one; a
      repeated one is an error under `new_password`. */
  lemma ChangePasswordIff(stored: string, current: Option<string>, proposed: Option<string>, policyOk: bool)
    ensures ChangePasswordCheck(stored, current, proposed, policyOk) == {} <==>
              stored != "" && current.Some? && Trim(current.value) == stored &&
              Filled(proposed) && Trim(proposed.value) != stored && policyOk
    ensures !Filled(current) ==> CurrentPassword in ChangePasswordCheck(stored, current, proposed, policyOk)
    ensures Filled(current) && Trim(current.value) != stored && Filled(proposed) && policyOk ==>
              ChangePasswordCheck(stored, current, proposed, policyOk) == {CurrentPassword}
    ensures current.Some? && Trim(current.value) == stored && stored != "" &&
              proposed.Some? && Trim(proposed.value) == stored && policyOk ==>
              ChangePasswordCheck(stored, current, proposed, policyOk) == {NewPassword}
  {
  }

  /** Surrounding whitespace never changes the verdict: the padded and the
      trimmed passwords are checked alike. */
  lemma ChangePasswordIgnoresPadding(stored: string, current: string, proposed: string, policyOk: bool)
    ensures ChangePasswordCheck(stored, Some(current), Some(proposed), policyOk) ==
            ChangePasswordCheck(stored, Some(Trim(current)), Some(Trim(proposed)), policyOk)
  {
    TrimmedUnchanged(current);
    TrimmedUnchanged(proposed);
    assert Filled(Some(Trim(current))) == Filled(Some(current));
    assert Filled(Some(Trim(proposed))) == Filled(Some(proposed));
  }

  // -------------------------------------------------------------- token login

  datatype LoginField = EmailKey | PasswordKey
  datatype LoginResult = LoggedIn(user: nat) | LoginRefused(fields: set<LoginField>)

  /** `TokenCreateSerializer`: a missing or blank field is an error under its
      key; then `validate`, on the trimmed values, refuses an unknown email
      under `email` and a password that does not authenticate under
      `password`. */
  ghost function TokenCheck(accounts: map<nat, Account>, email: Option<string>, password: Option<string>): LoginResult {
    var fieldErrors :=
      (if !Filled(email) then {EmailKey} else {}) + (if !Filled(password) then {PasswordKey} else {});
    if fieldErrors != {} then LoginRefused(fieldErrors)
    else
      var e := Trim(email.value);
      if !exists id :: id in accounts && accounts[id].email == e then LoginRefused({EmailKey})
      else
        var id :| id in accounts && accounts[id].email == e;
        if accounts[id].password == Trim(password.value) then LoggedIn(id) else LoginRefused({PasswordKey})
  }

  /** With unique emails, login succeeds exactly for the account whose email
      and password are the given ones, trimmed; each refusal names the fields
      at fault. */
  lemma TokenCheckSpec(accounts: map<nat, Account>, email: Option<string>, password: Option<string>)
    requires AccountsValid(accounts)
    ensures forall id :: TokenCheck(accounts, email, password) == LoggedIn(id) <==>
              Filled(email) && Filled(password) && id in accounts &&
              accounts[id].email == Trim(email.value) && accounts[id].password == Trim(password.value)
    ensures !Filled(email) || !Filled(password) ==>
              && TokenCheck(accounts, email, password).LoginRefused?
              && (EmailKey in TokenCheck(accounts, email, password).fields <==> !Filled(email))
              && (PasswordKey in TokenCheck(accounts, email, password).fields <==> !Filled(password))
    ensures Filled(email) && Filled(password) ==>
              (TokenCheck(accounts, email, password) == LoginRefused({EmailKey}) <==>
                 forall id :: id in accounts ==> accounts[id].email != Trim(email.value))
    ensures Filled(email) && Filled(password) ==>
              (TokenCheck(accounts, email, password) == LoginRefused({PasswordKey}) <==>
                 exists id :: id in accounts && accounts[id].email == Trim(email.value) &&
                              accounts[id].password != Trim(password.value))
  {
    if Filled(email) && Filled(password) {
      var e := Trim(email.value);
      if exists id :: id in accounts && accounts[id].email == e {
        var id :| id in accounts && accounts[id].email == e;
        assert forall other :: other in accounts && accounts[other].email == e ==> other == id;
      }
    }
  }

  // ------------------------------------------------- followed author's recipes

  /** `recipes_limit.isdigit()` for the ASCII digits; the empty string is false. */
  predicate LimitGiven(limit: Option<string>) {
    limit.Some? && IsDigits(limit.value)
  }

  /** `GetFollowSerializer.get_recipe`: the author's recipes, cut to the first
      `recipes_limit` only when that is a digit string. */
  function SubscriptionRecipes(authored: seq<nat>, limit: Option<string>): (r: seq<nat>)
    ensures r <= authored
    ensures !LimitGiven(limit) ==> r == authored
    ensures LimitGiven(limit) ==>
              |r| == if ParseNat(limit.value) < |authored| then ParseNat(limit.value) else |authored|
  {
    if LimitGiven(limit) then
      var n := ParseNat(limit.value);
      if n < |authored| then authored[..n] else authored
    else authored
  }

  /** `get_recipes_count`: all of the author's recipes. */
  function RecipesCount(authored: seq<nat>): nat {
    |authored|
  }

  /** The count ignores the limit: it bounds the list, and equals its length
      whenever no limit applies or the limit is at least the count. */
  lemma {:induction false} RecipesCountIgnoresLimit(authored: seq<nat>, limit: Option<string>)
    ensures |SubscriptionRecipes(authored, limit)| <= RecipesCount(authored)
    ensures !LimitGiven(limit) ==> |SubscriptionRecipes(authored, limit)| == RecipesCount(authored)
    ensures LimitGiven(limit) && ParseNat(limit.value) >= RecipesCount(authored) ==>
              SubscriptionRecipes(authored, limit) == authored
  {
  }

  /** Asking for `recipes_limit=n` with `n` written in decimal lists the first `n` recipes. */
  lemma LimitRoundTrip(authored: seq<nat>, n: nat)
    requires n <= |authored|
    ensures SubscriptionRecipes(authored, Some(NatToString(n))) == authored[..n]
  {
    ParseNatToString(n);
  }
}
