/**
 * Which files a conversation's deletion may name, and what that means for the messages that stay.
 */
module OrphanFiles {
  import opened FileCleanup

  type Conversation = nat
  type MessageId = nat

  datatype Attachment = Attachment(message: MessageId, file: FileId)

  /** Conversations with their owner, messages with their conversation, and the files messages point to. */
  datatype Chat = Chat(owners: map<Conversation, Owner>, messages: map<MessageId, Conversation>,
        attachments: set<Attachment>)

  predicate IsLinked(chat: Chat) {
    && (forall m :: m in chat.messages ==> chat.messages[m] in chat.owners)
    && (forall a :: a in chat.attachments ==> a.message in chat.messages)
  }

  /** The EXISTS subquery: message_files, joined with its message and that message's conversation. */
  predicate IsReferencedElsewhere(chat: Chat, file: FileId, c: Conversation, owner: Owner) {
    exists a :: a in chat.attachments && a.file == file && a.message in chat.messages
             && chat.messages[a.message] in chat.owners && chat.owners[chat.messages[a.message]] == owner
             && chat.messages[a.message] != c
  }

  function OrphansOf(chat: Chat, c: Conversation, owner: Owner): set<FileId> {
    set a | a in chat.attachments && a.message in chat.messages && chat.messages[a.message] == c
            && !IsReferencedElsewhere(chat, a.file, c, owner) :: a.file
  }

  /** The files a conversation shows. */
  function FilesOf(chat: Chat, c: Conversation): set<FileId> {
    set a | a in chat.attachments && a.message in chat.messages && chat.messages[a.message] == c :: a.file
  }

  /** A deletion names exactly the conversation's files that no other conversation of the owner shows. */
  lemma OrphansAreTheUnsharedFiles(chat: Chat, c: Conversation, owner: Owner, file: FileId)
    requires IsLinked(chat)
    ensures file in OrphansOf(chat, c, owner) <==>
      file in FilesOf(chat, c)
      && forall d :: d in chat.owners && d != c && chat.owners[d] == owner ==> file !in FilesOf(chat, d)
  {
    if IsReferencedElsewhere(chat, file, c, owner) {
      var a :| a in chat.attachments && a.file == file && a.message in chat.messages
            && chat.messages[a.message] in chat.owners && chat.owners[chat.messages[a.message]] == owner
            && chat.messages[a.message] != c;
      assert file in FilesOf(chat, chat.messages[a.message]);
    }
  }

  /** The cascade of a conversation's deletion. */
  function Without(chat: Chat, c: Conversation): Chat {
    Chat(chat.owners - {c}, map m | m in chat.messages && chat.messages[m] != c :: chat.messages[m],
         set a | a in chat.attachments && !(a.message in chat.messages && chat.messages[a.message] == c))
  }

  /** The cascade takes the conversation with all it shows, and nothing else. */
  lemma DeletionTakesOneConversation(chat: Chat, c: Conversation)
    requires IsLinked(chat)
    ensures IsLinked(Without(chat, c))
    ensures FilesOf(Without(chat, c), c) == {} && c !in Without(chat, c).owners
    ensures forall d :: d != c ==> FilesOf(Without(chat, c), d) == FilesOf(chat, d) && (d in chat.owners <==> d in Without(chat, c).owners)
  {
    var after := Without(chat, c);
    forall d | d != c ensures FilesOf(after, d) == FilesOf(chat, d) {
      forall f ensures f in FilesOf(after, d) <==> f in FilesOf(chat, d) {
        if f in FilesOf(chat, d) {
          var a :| a in chat.attachments && a.message in chat.messages && chat.messages[a.message] == d && a.file == f;
          assert a in after.attachments;
        }
      }
    }
  }

  // Deletions, cleanups and new messages, in any order.

  /** `events` are the published requests, whatever became of them; `reattached` are files attached again after one. */
  datatype System = System(chat: Chat, files: map<FileId, File>, events: set<Request>, reattached: set<Request>)

  datatype Step =
    | NewConversation(conversation: Conversation, owner: Owner)
    | NewMessage(message: MessageId, conversation: Conversation, attached: set<FileId>)
    | DeleteConversation(conversation: Conversation)
    | Reconcile(owner: Owner, named: set<FileId>)
    | Cleanup(request: Request, fault: Fault)

  predicate IsShown(chat: Chat, owner: Owner, file: FileId) {
    exists a :: a in chat.attachments && a.file == file && a.message in chat.messages
             && chat.messages[a.message] in chat.owners && chat.owners[chat.messages[a.message]] == owner
  }

  function Requests(owner: Owner, named: set<FileId>): set<Request> {
    set f | f in named :: Request(owner, f)
  }

  /** A step that is not possible in a state changes nothing. */
  function Apply(s: System, step: Step): System {
    match step
    case NewConversation(c, owner) =>
      if c in s.chat.owners then s else s.(chat := s.chat.(owners := s.chat.owners[c := owner]))
    case NewMessage(m, c, attached) =>
      if m in s.chat.messages || c !in s.chat.owners then s
      else
        s.(chat := Chat(s.chat.owners, s.chat.messages[m := c], s.chat.attachments + set f | f in attached :: Attachment(m, f)),
           reattached := s.reattached + s.events * Requests(s.chat.owners[c], attached))
    case DeleteConversation(c) =>
      if c !in s.chat.owners then s
      else
        var owner := s.chat.owners[c];
        s.(chat := Without(s.chat, c), events := s.events + Requests(owner, OrphansOf(s.chat, c, owner)))
    case Reconcile(owner, named) =>
      // Names only files that no message points to.
      if exists a :: a in s.chat.attachments && a.file in named then s else s.(events := s.events + Requests(owner, named))
    case Cleanup(r, fault) =>
      if r in s.events then s.(files := Tried(s.files, r.file, r.owner, fault)) else s
  }

  function Run(s: System, steps: seq<Step>): System {
    if steps == [] then s else Apply(Run(s, steps[..|steps| - 1]), steps[|steps| - 1])
  }

  /** A file that was asked to be deleted and is shown by its owner was attached again. */
  ghost predicate NamedIsNotShown(chat: Chat, events: set<Request>, reattached: set<Request>) {
    forall r :: r in events && IsShown(chat, r.owner, r.file) ==> r in reattached
  }

  /** Cleanups only delete what was asked for. */
  ghost predicate DeletedIsNamed(start: map<FileId, File>, files: map<FileId, File>, events: set<Request>) {
    && files.Keys == start.Keys
    && forall f :: f in files ==>
         files[f].owner == start[f].owner && (files[f] != start[f] ==> Request(files[f].owner, f) in events)
  }

  lemma WithoutShowsLess(chat: Chat, c: Conversation, owner: Owner, file: FileId)
    requires IsLinked(chat) && IsShown(Without(chat, c), owner, file)
    ensures IsShown(chat, owner, file) && IsReferencedElsewhere(chat, file, c, owner)
  {
    var after := Without(chat, c);
    var a :| a in after.attachments && a.file == file && a.message in after.messages
          && after.messages[a.message] in after.owners && after.owners[after.messages[a.message]] == owner;
    assert a in chat.attachments && chat.messages[a.message] != c;
  }

  lemma DeletionKeepsNamed(s: System, c: Conversation)
    requires IsLinked(s.chat) && NamedIsNotShown(s.chat, s.events, s.reattached) && c in s.chat.owners
    ensures var t := Apply(s, DeleteConversation(c)); NamedIsNotShown(t.chat, t.events, t.reattached)
  {
    var t := Apply(s, DeleteConversation(c));
    hide Without, IsReferencedElsewhere, IsShown;
    forall r | r in t.events && IsShown(t.chat, r.owner, r.file)
      ensures r in t.reattached
    {
      WithoutShowsLess(s.chat, c, r.owner, r.file);
    }
  }

  lemma MessageKeepsNamed(s: System, m: MessageId, c: Conversation, attached: set<FileId>)
    requires IsLinked(s.chat) && NamedIsNotShown(s.chat, s.events, s.reattached)
    requires m !in s.chat.messages && c in s.chat.owners
    ensures var t := Apply(s, NewMessage(m, c, attached)); NamedIsNotShown(t.chat, t.events, t.reattached)
  {
    var t := Apply(s, NewMessage(m, c, attached));
    forall r | r in t.events && IsShown(t.chat, r.owner, r.file)
      ensures r in t.reattached
    {
      var a :| a in t.chat.attachments && a.file == r.file && a.message in t.chat.messages
            && t.chat.messages[a.message] in t.chat.owners && t.chat.owners[t.chat.messages[a.message]] == r.owner;
      if a in s.chat.attachments {
        assert a.message in s.chat.messages;
        assert IsShown(s.chat, r.owner, r.file);
      } else {
        assert r in Requests(s.chat.owners[c], attached);
      }
    }
  }

  ghost predicate Inv(start: map<FileId, File>, s: System) {
    && IsLinked(s.chat) && NamedIsNotShown(s.chat, s.events, s.reattached)
    && DeletedIsNamed(start, s.files, s.events) && s.reattached <= s.events
  }

  lemma StepKeepsLinked(s: System, step: Step)
    requires IsLinked(s.chat)
    ensures IsLinked(Apply(s, step).chat)
  {
    hide OrphansOf, IsShown, Tried;
  }

  lemma StepKeepsNamed(s: System, step: Step)
    requires IsLinked(s.chat) && NamedIsNotShown(s.chat, s.events, s.reattached)
    ensures var t := Apply(s, step); NamedIsNotShown(t.chat, t.events, t.reattached)
  {
    match step
    case NewConversation(c, owner) =>
      var t := Apply(s, step);
      forall o, f ensures IsShown(t.chat, o, f) ==> IsShown(s.chat, o, f) {}
    case NewMessage(m, c, attached) =>
      if m !in s.chat.messages && c in s.chat.owners { MessageKeepsNamed(s, m, c, attached); }
    case DeleteConversation(c) =>
      if c in s.chat.owners { DeletionKeepsNamed(s, c); }
    case Reconcile(owner, named) =>
    case Cleanup(r, fault) =>
  }

  lemma {:induction false} RunKeepsInv(s: System, steps: seq<Step>)
    requires IsLinked(s.chat) && s.events == {} && s.reattached == {}
    ensures Inv(s.files, Run(s, steps))
  {
    hide Apply, IsLinked, IsShown;
    if steps != [] {
      var before, step := Run(s, steps[..|steps| - 1]), steps[|steps| - 1];
      RunKeepsInv(s, steps[..|steps| - 1]);
      StepKeepsLinked(before, step);
      StepKeepsNamed(before, step);
      StepKeepsDeletedNamed(s.files, before, step);
    }
  }

  lemma StepKeepsDeletedNamed(start: map<FileId, File>, s: System, step: Step)
    requires DeletedIsNamed(start, s.files, s.events) && s.reattached <= s.events
    ensures DeletedIsNamed(start, Apply(s, step).files, Apply(s, step).events) && Apply(s, step).reattached <= Apply(s, step).events
  {
    hide OrphansOf, IsShown, Without;
  }

  /**
   * Over every run of new messages, deletions, reconciliations and cleanups with any faults: a file that some
   * message of its own owner still shows is as it was at the start, unless it was named for deletion and attached
   * again afterwards.
   */
  lemma ShownFilesSurvive(s: System, steps: seq<Step>, f: FileId)
    requires IsLinked(s.chat) && s.events == {} && s.reattached == {}
    requires f in s.files && IsShown(Run(s, steps).chat, s.files[f].owner, f)
    requires Request(s.files[f].owner, f) !in Run(s, steps).reattached
    ensures f in Run(s, steps).files && Run(s, steps).files[f] == s.files[f]
  {
    RunKeepsInv(s, steps);
  }

  /** A file attached again between its naming and its cleanup is lost to the message that shows it. */
  lemma ReattachedFileIsLost()
    ensures
      var file := File(7, Uploaded, false, true);
      var s := System(Chat(map[1 := 7, 2 := 7], map[10 := 1], {Attachment(10, 100)}), map[100 := file], {}, {});
      var t := Apply(Apply(Apply(s, DeleteConversation(1)), NewMessage(11, 2, {100})), Cleanup(Request(7, 100), NoFault));
      IsShown(t.chat, 7, 100) && t.files[100] == Gone(file) && Request(7, 100) in t.reattached
  {
    var file := File(7, Uploaded, false, true);
    var s := System(Chat(map[1 := 7, 2 := 7], map[10 := 1], {Attachment(10, 100)}), map[100 := file], {}, {});
    assert 100 in OrphansOf(s.chat, 1, 7) by { assert Attachment(10, 100) in s.chat.attachments; }
    var one := Apply(s, DeleteConversation(1));
    assert Request(7, 100) in one.events;
    assert 11 !in one.chat.messages && 2 in one.chat.owners && one.chat.owners[2] == 7;
    var two := Apply(one, NewMessage(11, 2, {100}));
    assert Attachment(11, 100) in two.chat.attachments && two.chat.messages[11] == 2;
  }
}
