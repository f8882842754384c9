/** The role gate `Button` and `Card` share: an element listing no roles is shown to
    everyone, otherwise only to the listed roles. */
module Visibility {

  /** The negation of `roles.length > 0 && !roles.includes(userRole)`. */
  predicate RoleAllows(roles: seq<string>, userRole: string) {
    |roles| == 0 || userRole in roles
  }

  /** Adding roles to a non-empty role list never hides an element from someone who
      could already see it. */
  lemma RoleAllowsMonotone(roles: seq<string>, more: seq<string>, userRole: string)
    requires |roles| > 0 && forall r :: r in roles ==> r in more
    requires RoleAllows(roles, userRole)
    ensures RoleAllows(more, userRole)
  {
  }

  /** The non-empty requirement above is needed: going from no roles to any list that
      leaves the user out hides an element that everyone could see. */
  lemma EmptyToNonEmptyCanHide(more: seq<string>, userRole: string)
    requires |more| > 0 && userRole !in more
    ensures RoleAllows([], userRole) && !RoleAllows(more, userRole)
  {
  }
}
