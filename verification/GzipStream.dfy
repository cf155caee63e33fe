/** A gzip body as a sequence of members, and the decompressor that is fed it in pieces. What
    a member holds is given by a codec; how the decompressor buffers is arbitrary. */
module GzipStream {
  import opened PyValues
  import opened Utf8

  /** What a codec sees at the front of its input: a whole member of some size, a member that
      is still open, with the content it has shown so far, or no member. */
  datatype Member = Whole(size: nat, content: Bytes) | Open(content: Bytes) | Bad

  type Codec = Bytes -> Member

  /** More input never changes what was seen. */
  predicate Extends(before: Member, size: nat, after: Member) {
    match before
    case Whole(_, _) => after == before
    case Bad => after == Bad
    case Open(content) => !after.Bad? ==> content <= after.content && (after.Whole? ==> after.size > size)
  }

  ghost predicate Lawful(codec: Codec) {
    && codec([]) == Open([])
    && (forall a :: codec(a).Whole? ==> 0 < codec(a).size <= |a|)
    && (forall a, b :: a <= b ==> Extends(codec(a), |a|, codec(b)))
  }

  /** Such codecs exist: for instance, each byte a member of its own. */
  lemma ByteMembersAreLawful(codec: Codec)
    requires forall input :: codec(input) == if input == [] then Open([]) else Whole(1, [input[0]])
    ensures Lawful(codec)
  {
  }

  lemma MoreInput(codec: Codec, a: Bytes, b: Bytes)
    requires Lawful(codec) && a <= b
    ensures Extends(codec(a), |a|, codec(b)) && (codec(a).Whole? ==> 0 < codec(a).size <= |a|)
  {
  }

  /** The content of a body made of whole members (section 2.2 of RFC 1952); None otherwise. */
  function Contents(codec: Codec, wire: Bytes): Option<Bytes> {
    if wire == [] then Some([])
    else
      var member := codec(wire);
      if !member.Whole? || member.size == 0 || member.size > |wire| then None
      else match Contents(codec, wire[member.size..])
        case None => None
        case Some(rest) => Some(member.content + rest)
  }

  lemma Regroup(a: Bytes, b: Bytes, c: Bytes)
    ensures a + (b + c) == a + b + c
  {
  }

  /** Whole members in front are decoded by themselves. */
  lemma {:induction false} ContentsSplit(codec: Codec, done: Bytes, rest: Bytes)
    requires Lawful(codec) && Contents(codec, done).Some?
    ensures Contents(codec, done + rest)
            == match Contents(codec, rest)
               case None => None
               case Some(content) => Some(Contents(codec, done).value + content)
  {
    hide Lawful;
    if done == [] {
      assert done + rest == rest;
      if Contents(codec, rest).Some? { assert [] + Contents(codec, rest).value == Contents(codec, rest).value; }
    } else {
      var all := done + rest;
      var n := codec(done).size;
      MoreInput(codec, done, all);
      assert all[n..] == done[n..] + rest;
      ContentsSplit(codec, done[n..], rest);
      if Contents(codec, rest).Some? {
        Regroup(codec(done).content, Contents(codec, done[n..]).value, Contents(codec, rest).value);
      }
    }
  }

  /** A member that ends inside its input is a member by itself. */
  lemma MemberEnds(codec: Codec, member: Bytes, rest: Bytes)
    requires Lawful(codec) && codec(member + rest).Whole? && codec(member + rest).size == |member|
    ensures codec(member) == codec(member + rest)
  {
    hide Lawful;
    MoreInput(codec, member, member + rest);
  }

  lemma OneMember(codec: Codec, member: Bytes)
    requires Lawful(codec) && codec(member).Whole? && codec(member).size == |member|
    ensures Contents(codec, member) == Some(codec(member).content)
  {
    hide Lawful;
    MoreInput(codec, member, member);
    assert member[|member|..] == [];
    assert codec(member).content + [] == codec(member).content;
  }

  /** Content that was shown stays in front of whatever the members decode to. */
  lemma ShownContent(codec: Codec, input: Bytes, more: Bytes)
    requires Lawful(codec) && input != [] && Contents(codec, input + more).Some?
    ensures !codec(input).Bad? && codec(input).content <= Contents(codec, input + more).value
  {
    hide Lawful;
    MoreInput(codec, input, input + more);
  }

  function Joined(parts: seq<Bytes>): Bytes {
    if parts == [] then [] else parts[0] + Joined(parts[1..])
  }

  function ContentOf(m: Member): Bytes {
    match m
    case Whole(_, content) => content
    case Open(content) => content
    case Bad => []
  }

  function ContentsOfMembers(codec: Codec, members: seq<Bytes>): seq<Bytes> {
    seq(|members|, i requires 0 <= i < |members| => ContentOf(codec(members[i])))
  }

  /** A body is cut into whole members that hold this content, one after the other. */
  ghost predicate MadeOf(codec: Codec, wire: Bytes, members: seq<Bytes>, content: Bytes) {
    && Joined(members) == wire && Joined(ContentsOfMembers(codec, members)) == content
    && forall i :: 0 <= i < |members| ==> codec(members[i]).Whole? && codec(members[i]).size == |members[i]|
  }

  /** A body decodes to a content exactly when it is made of whole members that hold it. */
  lemma ContentsMeans(codec: Codec, wire: Bytes, content: Bytes)
    requires Lawful(codec)
    ensures Contents(codec, wire) == Some(content) <==> exists members :: MadeOf(codec, wire, members, content)
  {
    hide Lawful, MadeOf, Contents;
    if Contents(codec, wire) == Some(content) {
      var members := CutIntoMembers(codec, wire);
    }
    if members :| MadeOf(codec, wire, members, content) {
      MembersDecode(codec, wire, members, content);
    }
  }

  lemma {:induction false} CutIntoMembers(codec: Codec, wire: Bytes) returns (members: seq<Bytes>)
    requires Lawful(codec) && Contents(codec, wire).Some?
    ensures MadeOf(codec, wire, members, Contents(codec, wire).value)
  {
    hide Lawful;
    if wire == [] {
      members := [];
    } else {
      var n := codec(wire).size;
      var member := wire[..n];
      assert wire == member + wire[n..];
      MemberEnds(codec, member, wire[n..]);
      var rest := CutIntoMembers(codec, wire[n..]);
      members := [member] + rest;
      assert members[1..] == rest;
      assert ContentsOfMembers(codec, members)[1..] == ContentsOfMembers(codec, rest);
    }
  }

  lemma {:induction false} MembersDecode(codec: Codec, wire: Bytes, members: seq<Bytes>, content: Bytes)
    requires Lawful(codec) && MadeOf(codec, wire, members, content)
    ensures Contents(codec, wire) == Some(content)
    decreases |members|
  {
    hide Lawful, Contents;
    if members == [] {
      NothingDecodes(codec);
    } else {
      var rest := members[1..];
      assert ContentsOfMembers(codec, members)[1..] == ContentsOfMembers(codec, rest);
      MembersDecode(codec, Joined(rest), rest, Joined(ContentsOfMembers(codec, rest)));
      OneMember(codec, members[0]);
      ContentsSplit(codec, members[0], Joined(rest));
    }
  }

  lemma NothingDecodes(codec: Codec)
    ensures Contents(codec, []) == Some([])
  {
  }

  /** How one call buffers: how much input it takes when its output is cut short, and whether it
      stops short of the member's end when the output just fits. */
  datatype Habit = Habit(taken: nat, stopsShort: bool)

  function Least(a: nat, b: nat): nat { if a < b then a else b }

  class Decompressor {
    const codec: Codec
    var fed: Bytes
    var given: nat
    var eof: bool

    constructor (codec: Codec)
      ensures this.codec == codec && fed == [] && given == 0 && !eof
    {
      this.codec, fed, given, eof := codec, [], 0, false;
    }

    /** The member under way, with the input that waits, has shown what was given. */
    ghost predicate Ready(waiting: Bytes)
      reads this
    {
      Lawful(codec) && !eof && codec(fed).Open?
          && (codec(fed + waiting).Bad? || given <= |codec(fed + waiting).content|)
    }

    /** One call with an output cap, where a cap of zero would mean none. It gives the next
        content, at most the cap; it takes all input unless the cap or the member's end stops
        it; and it is at the end only when the whole member was taken and given. */
    method Decompress(chunk: Bytes, cap: nat, habit: Habit) returns (decoded: Option<Bytes>, rest: Bytes)
      requires cap >= 1 && chunk != [] && Ready(chunk)
      modifies this
      ensures decoded.None? <==> codec(old(fed) + chunk).Bad?
      ensures decoded.Some? ==>
                && old(fed) + chunk == fed + rest && |decoded.value| <= cap
                && given == old(given) + |decoded.value| <= |codec(fed + rest).content|
                && decoded.value == codec(fed + rest).content[old(given)..given]
                && (eof <==> && codec(fed + rest).Whole? && codec(fed + rest).size == |fed|
                             && given == |codec(fed + rest).content|)
                && (!eof ==> Ready(rest) && (rest != [] ==> decoded.value != []))
                && |rest| <= |chunk| && (decoded.value == [] ==> |rest| < |chunk|)
    {
      hide Lawful;
      var input := fed + chunk;
      MoreInput(codec, fed, input);
      MoreInput(codec, input, input);
      var seen := codec(input);
      if seen.Bad? {
        return None, chunk;
      }
      var pending := seen.content[given..];
      var ends := seen.Whole? && (|pending| < cap || (|pending| == cap && !habit.stopsShort));
      var taken: nat;
      if ends {
        decoded, taken, eof := Some(pending), seen.size - |fed|, true;
      } else if |pending| < cap {
        decoded, taken := Some(pending), |chunk|;
      } else {
        decoded := Some(pending[..cap]);
        taken := Least(habit.taken, if seen.Whole? then seen.size - |fed| - 1 else |chunk|);
      }
      rest := chunk[taken..];
      fed := fed + chunk[..taken];
      given := given + |decoded.value|;
      assert fed + rest == input;
      MoreInput(codec, fed, input);
    }
  }
}
