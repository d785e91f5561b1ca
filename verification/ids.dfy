/** Identifiers of the hosted store: both are opaque text (UUIDs in practice). */
module Ids {

  /** The `id` of a row of the `messes` table. */
  type MessId = string

  /** The `id` of an authenticated user, also the `user_id` of a mess member. */
  type UserId = string
}
