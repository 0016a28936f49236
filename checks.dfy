/**
 * The permission predicates commands are gated by. Each reads one incoming
 * message and answers whether its author is an administrator of the guild,
 * the guild's owner, or the bot's owner. They are functions: total, and
 * they change nothing.
 */
module Checks {
  import opened Wrappers

  /** The author's guild membership; `hasPermission('ADMINISTRATOR')` is opaque. */
  datatype Member = Member(administrator: bool)

  datatype Guild = Guild(ownerId: string)

  /** The bot client; its configured owner may be unset. */
  datatype Client = Client(botOwnerId: Option<string>)

  /** An incoming message: no member and no guild outside a guild channel. */
  datatype Message = Message(member: Option<Member>, guild: Option<Guild>, authorId: string, client: Client)

  /** `isAdmin`: the gate of the `statusmod` command. */
  predicate IsAdmin(m: Message)
    ensures m.member.None? ==> !IsAdmin(m)
    ensures m.member.Some? ==> (IsAdmin(m) <==> m.member.value.administrator)
  {
    if m.member.None? then false else m.member.value.administrator
  }

  /** `isOwner`: the author owns the guild the message was sent in. */
  predicate IsOwner(m: Message)
    ensures m.guild.None? ==> !IsOwner(m)
    ensures m.guild.Some? ==> (IsOwner(m) <==> m.guild.value.ownerId == m.authorId)
  {
    if m.guild.None? then false else m.guild.value.ownerId == m.authorId
  }

  /** `isBotOwner`: the author is the configured bot owner, in or out of a guild. */
  predicate IsBotOwner(m: Message)
    ensures IsBotOwner(m) <==> m.client.botOwnerId == Some(m.authorId)
  {
    m.client.botOwnerId == Some(m.authorId)
  }

  /** Who wrote the message, and in which guild, does not matter to `isAdmin`. */
  lemma AdminDependsOnlyOnMember(m: Message, guild: Option<Guild>, author: string, client: Client)
    ensures IsAdmin(m) == IsAdmin(Message(m.member, guild, author, client))
  {
  }

  /** Membership and the bot client do not matter to `isOwner`. */
  lemma OwnerIgnoresMemberAndClient(m: Message, member: Option<Member>, client: Client)
    ensures IsOwner(m) == IsOwner(Message(member, m.guild, m.authorId, client))
  {
  }

  /** Guild and membership do not matter to `isBotOwner`. */
  lemma BotOwnerIgnoresGuild(m: Message, member: Option<Member>, guild: Option<Guild>)
    ensures IsBotOwner(m) == IsBotOwner(Message(member, guild, m.authorId, m.client))
  {
  }
}
