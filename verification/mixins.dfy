/** `AuthorRequiredMixin`: who may update or delete a post or a comment. */
module Mixins {
  import opened Common

  /** Proceed, redirect home with a notice, or send to the login entry point. */
  datatype Decision = Allow | DenyWithNotice | RequireLogin

  /** The decision looks only at whether the actor is logged in, who the
      actor is, and the entity's author. */
  function AuthorGate(actor: Actor, author: UserId): (d: Decision)
    ensures d == RequireLogin <==> actor.Anonymous?
    ensures d == DenyWithNotice <==> (actor.Authenticated? && actor.user != author)
    ensures d == Allow <==> actor == Authenticated(author)
  {
    if actor.Anonymous? then RequireLogin
    else if actor.user != author then DenyWithNotice
    else Allow
  }
}
