/**
 * plugins/locations.py: where a command may run. A location record lists
 * channel ids under "channels" and category ids under "categories"; a
 * guild channel is inside the location when it is listed itself or sits in
 * a listed category.
 */
module Locations {
  import opened Wrappers
  import opened Text
  import opened IdLists

  /** A guild channel: its id and the id of its category, if any. */
  datatype Channel = Channel(id: int, category: Option<int>)

  /** Where a message was sent: a guild channel or somewhere else (a direct message). */
  datatype Where = GuildChannel(channel: Channel) | Elsewhere

  /** The fields of a location record. */
  const Fields: seq<string> := ["channels", "categories"]

  /** in_location */
  predicate InLocation(conf: Conf, loc: string, ch: Channel)
  {
    loc in conf
    && (IntToString(ch.id) in Ids(conf[loc], "channels")
        || (ch.category.Some? && IntToString(ch.category.value) in Ids(conf[loc], "categories")))
  }

  /** The check of the location decorator: does the command run? */
  function Runs(conf: Conf, loc: string, w: Where): (r: bool)
    ensures r <==> (w.GuildChannel? && loc in conf
                    && (IntToString(w.channel.id) in Ids(conf[loc], "channels")
                        || (w.channel.category.Some?
                            && IntToString(w.channel.category.value) in Ids(conf[loc], "categories"))))
    ensures w.Elsewhere? ==> !r
  {
    w.GuildChannel? && InLocation(conf, loc, w.channel)
  }

  /** A channel outside any category is inside a location only when listed itself. */
  lemma UncategorisedNeedsListing(conf: Conf, loc: string, ch: Channel)
    requires ch.category.None?
    ensures InLocation(conf, loc, ch) <==> loc in conf && IntToString(ch.id) in Ids(conf[loc], "channels")
  {
  }

  /** No channel is inside a location that was just created, or one that was just deleted. */
  lemma NewAndDeletedHoldNothing(conf: Conf, loc: string, ch: Channel)
    ensures loc !in conf ==> !InLocation(NewResult(conf, loc, Fields).0, loc, ch)
    ensures !InLocation(DeleteResult(conf, loc).0, loc, ch)
  {
    NewEffect(conf, loc, Fields, "channels");
    NewEffect(conf, loc, Fields, "categories");
  }

  /** location add channel: the channel is inside afterwards. */
  lemma AddChannelIncludes(conf: Conf, loc: string, ch: Channel)
    requires loc in conf
    ensures InLocation(AddResult(conf, loc, "channels", IntToString(ch.id)).0, loc, ch)
  {
    AddEffect(conf, loc, "channels", IntToString(ch.id));
  }

  /** location add category: every channel of that category is inside afterwards. */
  lemma AddCategoryIncludes(conf: Conf, loc: string, cat: int, ch: Channel)
    requires loc in conf && ch.category == Some(cat)
    ensures InLocation(AddResult(conf, loc, "categories", IntToString(cat)).0, loc, ch)
  {
    AddEffect(conf, loc, "categories", IntToString(cat));
  }

  /** location remove channel: afterwards the channel is inside only through its category. */
  lemma RemoveChannelExcludes(conf: Conf, loc: string, ch: Channel)
    requires loc in conf
    ensures var c := RemoveResult(conf, loc, "channels", IntToString(ch.id)).0;
      InLocation(c, loc, ch) <==>
        ch.category.Some? && IntToString(ch.category.value) in Ids(conf[loc], "categories")
  {
    RemoveEffect(conf, loc, "channels", IntToString(ch.id));
  }

  /** location remove category: afterwards a channel of it is inside only when listed itself. */
  lemma RemoveCategoryExcludes(conf: Conf, loc: string, cat: int, ch: Channel)
    requires loc in conf && ch.category == Some(cat)
    ensures var c := RemoveResult(conf, loc, "categories", IntToString(cat)).0;
      InLocation(c, loc, ch) <==> IntToString(ch.id) in Ids(conf[loc], "channels")
  {
    RemoveEffect(conf, loc, "categories", IntToString(cat));
  }
}
