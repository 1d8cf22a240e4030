/**
 * Keys of the activity context. A key carries a description that is fixed at
 * construction, and keys are compared by identity: two keys with the same
 * description are different keys.
 */
module ContextKeys {

  class ActivityContextKey {
    const description: string

    /** The description is set once here and never changes afterwards. */
    constructor (description: string)
      ensures this.description == description
    {
      this.description := description;
    }
  }

  /** Two keys built from the same description are still two distinct keys. */
  method SameDescriptionDistinctKeys(description: string) returns (first: ActivityContextKey, second: ActivityContextKey)
    ensures first.description == description && second.description == description
    ensures first != second
  {
    first := new ActivityContextKey(description);
    second := new ActivityContextKey(description);
  }
}
