/**
 * A categorised result message: the value `ResultMessage` and the mutable
 * holder `ActivityResultMessage`, whose setters change one field each.
 */
module ResultMessages {
  import opened MessageCategories

  /** The contents of a message at one moment: its category and its text. */
  datatype ResultMessage = ResultMessage(category: Category, text: string)

  class ActivityResultMessage {
    var category: Category
    var message: string

    /** The message's current contents. */
    function State(): (m: ResultMessage)
      reads this
      ensures m.category == category && m.text == message
    {
      ResultMessage(category, message)
    }

    /** Stores exactly the given category and text. */
    constructor (category: Category, message: string)
      ensures State() == ResultMessage(category, message)
    {
      this.category := category;
      this.message := message;
    }

    /** Stores the text with category DEFAULT. */
    constructor WithDefaultCategory(message: string)
      ensures State() == ResultMessage(Default, message)
    {
      this.category := Default;
      this.message := message;
    }

    /** Replaces the category; the text is kept. */
    method SetCategory(category: Category)
      modifies this
      ensures State() == old(State()).(category := category)
    {
      this.category := category;
    }

    /** Replaces the text; the category is kept. */
    method SetMessage(message: string)
      modifies this
      ensures State() == old(State()).(text := message)
    {
      this.message := message;
    }
  }
}
