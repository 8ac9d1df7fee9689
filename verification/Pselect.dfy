/** pselect on top of ppoll: the sets become an array of requests, the answers become sets again. */
module Pselect {
  import opened Counting

  const FD_SETSIZE: int := 1024
  const ENOMEM: int := 12

  /** The event bits. */
  datatype Flag = PollIn | PollOut | PollPri | PollErr | PollHup | PollNval

  datatype PollFd = PollFd(fd: int, events: set<Flag>, revents: set<Flag>)

  class FdSet {
    var fds: set<int>

    constructor (fds: set<int>)
      ensures this.fds == fds
    {
      this.fds := fds;
    }
  }

  function Asked(s: set<int>, i: int, flag: Flag): set<Flag> {
    if i in s then {flag} else {}
  }

  /** The request for descriptor i: what it is wanted for, and -1 in its place if for nothing. */
  function Request(r: set<int>, w: set<int>, e: set<int>, i: int): PollFd {
    var events := Asked(r, i, PollIn) + Asked(w, i, PollOut) + Asked(e, i, PollPri);
    PollFd(if events == {} then -1 else i, events, {})
  }

  /** What a poll may answer: the events asked for, an error, a hang-up or a bad descriptor, and nothing at -1. */
  ghost predicate MayAnswer(p: PollFd, revents: set<Flag>) {
    if p.fd < 0 then revents == {} else revents <= p.events + {PollErr, PollHup, PollNval}
  }

  ghost function Reporting(fds: seq<PollFd>): set<int> {
    set i | 0 <= i < |fds| && fds[i].revents != {}
  }

  /** ppoll: fails, or fills in answers it may give and counts the entries with one. */
  method SysPpoll(fds: array<PollFd>) returns (ret: int, numEvents: nat)
    modifies fds
    ensures forall i :: 0 <= i < fds.Length ==> fds[i].fd == old(fds[i].fd) && fds[i].events == old(fds[i].events)
    ensures ret == 0 ==> forall i :: 0 <= i < fds.Length ==> MayAnswer(fds[i], fds[i].revents)
    ensures ret == 0 ==> numEvents == |Reporting(fds[..])|
  {
    ret, numEvents := *, 0;
    if ret != 0 {
      return;
    }
    for i := 0 to fds.Length
      invariant forall k :: 0 <= k < fds.Length ==> fds[k].fd == old(fds[k].fd) && fds[k].events == old(fds[k].events)
      invariant forall k :: 0 <= k < i ==> MayAnswer(fds[k], fds[k].revents)
      invariant numEvents == |Reporting(fds[..i])|
    {
      var answer: set<Flag> := *;
      answer := if fds[i].fd < 0 then {} else answer * (fds[i].events + {PollErr, PollHup, PollNval});
      ghost var before := fds[..i];
      fds[i] := fds[i].(revents := answer);
      assert fds[..i] == before;
      ReportingOneMore(fds[..i + 1]);
      assert fds[..i + 1][..i] == fds[..i];
      if answer != {} {
        numEvents := numEvents + 1;
      }
    }
    assert fds[..fds.Length] == fds[..];
  }

  lemma ReportingOneMore(fds: seq<PollFd>)
    requires fds != []
    ensures |Reporting(fds)| == |Reporting(fds[..|fds| - 1])| + if fds[|fds| - 1].revents != {} then 1 else 0
  {
    var n := |fds| - 1;
    if fds[n].revents != {} {
      assert Reporting(fds) == Reporting(fds[..n]) + {n};
    } else {
      assert Reporting(fds) == Reporting(fds[..n]);
    }
  }

  /** The members of a set below the limit whose answer has one of the given bits. */
  function Selected(s: set<int>, answers: seq<set<Flag>>, bits: set<Flag>): set<int> {
    set i | i in s && 0 <= i < |answers| && answers[i] * bits != {}
  }

  const READ_BITS: set<Flag> := {PollIn, PollErr, PollHup}
  const WRITE_BITS: set<Flag> := {PollOut, PollErr, PollHup}
  const EXCEPT_BITS: set<Flag> := {PollPri}

  function FdsOf(s: FdSet?): set<int>
    reads s
  {
    if s == null then {} else s.fds
  }

  function Answers(fds: seq<PollFd>): (a: seq<set<Flag>>)
    ensures |a| == |fds| && forall i :: 0 <= i < |a| ==> a[i] == fds[i].revents
  {
    seq(|fds|, i requires 0 <= i < |fds| => fds[i].revents)
  }

  /** The first loop: one request for each descriptor below the limit. */
  method BuildRequests(nfds: nat, readSet: FdSet?, writeSet: FdSet?, exceptSet: FdSet?) returns (fds: array<PollFd>)
    ensures fresh(fds) && fds.Length == nfds
    ensures forall i :: 0 <= i < nfds ==> fds[i] == Request(FdsOf(readSet), FdsOf(writeSet), FdsOf(exceptSet), i)
  {
    fds := new PollFd[nfds](_ => PollFd(0, {}, {}));
    for i := 0 to nfds
      invariant forall k :: 0 <= k < i ==> fds[k] == Request(FdsOf(readSet), FdsOf(writeSet), FdsOf(exceptSet), k)
      invariant forall k :: i <= k < nfds ==> fds[k] == PollFd(0, {}, {})
    {
      if readSet != null && i in readSet.fds {
        fds[i] := fds[i].(events := fds[i].events + {PollIn});
      }
      if writeSet != null && i in writeSet.fds {
        fds[i] := fds[i].(events := fds[i].events + {PollOut});
      }
      if exceptSet != null && i in exceptSet.fds {
        fds[i] := fds[i].(events := fds[i].events + {PollPri});
      }
      if fds[i].events == {} {
        fds[i] := fds[i].(fd := -1);
        continue;
      }
      fds[i] := fds[i].(fd := i);
    }
  }

  /** Flag by flag: a descriptor stays in the read set if and only if it was there and its answer holds PollIn,
      PollErr or PollHup; in the write set, with PollOut in the place of PollIn; in the third, with PollPri alone. */
  ghost predicate KeptByFlags(r: set<int>, w: set<int>, e: set<int>, answers: seq<set<Flag>>,
                              keptR: set<int>, keptW: set<int>, keptE: set<int>) {
    && (forall i :: i in keptR <==>
          i in r && 0 <= i < |answers| && (PollIn in answers[i] || PollErr in answers[i] || PollHup in answers[i]))
    && (forall i :: i in keptW <==>
          i in w && 0 <= i < |answers| && (PollOut in answers[i] || PollErr in answers[i] || PollHup in answers[i]))
    && (forall i :: i in keptE <==> i in e && 0 <= i < |answers| && PollPri in answers[i])
  }

  lemma SelectedByFlags(r: set<int>, w: set<int>, e: set<int>, answers: seq<set<Flag>>)
    ensures KeptByFlags(r, w, e, answers, Selected(r, answers, READ_BITS), Selected(w, answers, WRITE_BITS),
                        Selected(e, answers, EXCEPT_BITS))
  {
    forall i | 0 <= i < |answers|
      ensures answers[i] * READ_BITS != {} <==> PollIn in answers[i] || PollErr in answers[i] || PollHup in answers[i]
      ensures answers[i] * WRITE_BITS != {} <==> PollOut in answers[i] || PollErr in answers[i] || PollHup in answers[i]
      ensures answers[i] * EXCEPT_BITS != {} <==> PollPri in answers[i]
    {
      SomeOf(answers[i], PollIn, PollErr, PollHup);
      SomeOf(answers[i], PollOut, PollErr, PollHup);
      SomeOf(answers[i], PollPri, PollPri, PollPri);
    }
  }

  /** The second loop: the descriptors of each set that have a matching answer. */
  method CollectResults(fds: array<PollFd>, readSet: FdSet?, writeSet: FdSet?, exceptSet: FdSet?)
      returns (resRead: set<int>, resWrite: set<int>, resExcept: set<int>)
    ensures resRead == Selected(FdsOf(readSet), Answers(fds[..]), READ_BITS)
    ensures resWrite == Selected(FdsOf(writeSet), Answers(fds[..]), WRITE_BITS)
    ensures resExcept == Selected(FdsOf(exceptSet), Answers(fds[..]), EXCEPT_BITS)
    ensures KeptByFlags(FdsOf(readSet), FdsOf(writeSet), FdsOf(exceptSet), Answers(fds[..]), resRead, resWrite, resExcept)
  {
    ghost var answers := Answers(fds[..]);
    hide Selected;
    resRead, resWrite, resExcept := {}, {}, {};
    SelectedNothing(FdsOf(readSet), answers, READ_BITS);
    SelectedNothing(FdsOf(writeSet), answers, WRITE_BITS);
    SelectedNothing(FdsOf(exceptSet), answers, EXCEPT_BITS);
    for i := 0 to fds.Length
      invariant resRead == Selected(FdsOf(readSet), answers[..i], READ_BITS)
      invariant resWrite == Selected(FdsOf(writeSet), answers[..i], WRITE_BITS)
      invariant resExcept == Selected(FdsOf(exceptSet), answers[..i], EXCEPT_BITS)
    {
      SelectedOneMore(FdsOf(readSet), answers, READ_BITS, i);
      SelectedOneMore(FdsOf(writeSet), answers, WRITE_BITS, i);
      SelectedOneMore(FdsOf(exceptSet), answers, EXCEPT_BITS, i);
      if readSet != null && i in readSet.fds && fds[i].revents * {PollIn, PollErr, PollHup} != {} {
        resRead := resRead + {i};
      }
      if writeSet != null && i in writeSet.fds && fds[i].revents * {PollOut, PollErr, PollHup} != {} {
        resWrite := resWrite + {i};
      }
      if exceptSet != null && i in exceptSet.fds && fds[i].revents * {PollPri} != {} {
        resExcept := resExcept + {i};
      }
    }
    assert answers[..fds.Length] == answers;
    SelectedByFlags(FdsOf(readSet), FdsOf(writeSet), FdsOf(exceptSet), answers);
  }

  lemma SelectedNothing(s: set<int>, answers: seq<set<Flag>>, bits: set<Flag>)
    ensures Selected(s, answers[..0], bits) == {}
  {
  }

  lemma SelectedOneMore(s: set<int>, answers: seq<set<Flag>>, bits: set<Flag>, i: nat)
    requires i < |answers|
    ensures Selected(s, answers[..i + 1], bits) ==
              Selected(s, answers[..i], bits) + if i in s && answers[i] * bits != {} then {i} else {}
  {
  }

  /** The descriptors with any answer. */
  ghost function Answering(answers: seq<set<Flag>>): set<int> {
    set i | 0 <= i < |answers| && answers[i] != {}
  }

  ghost predicate MayAnswerAll(r: set<int>, w: set<int>, e: set<int>, answers: seq<set<Flag>>) {
    forall i :: 0 <= i < |answers| ==> MayAnswer(Request(r, w, e, i), answers[i])
  }

  /** A descriptor in none of the sets answers nothing; one that is answers only what it is wanted for, or an error,
      a hang-up, or that it is no descriptor. */
  ghost predicate AnswersByFlags(r: set<int>, w: set<int>, e: set<int>, answers: seq<set<Flag>>) {
    forall i :: 0 <= i < |answers| ==>
      && (i !in r && i !in w && i !in e ==> answers[i] == {})
      && (PollIn in answers[i] ==> i in r)
      && (PollOut in answers[i] ==> i in w)
      && (PollPri in answers[i] ==> i in e)
  }

  lemma FlagsOfAnswers(r: set<int>, w: set<int>, e: set<int>, answers: seq<set<Flag>>)
    requires MayAnswerAll(r, w, e, answers)
    ensures AnswersByFlags(r, w, e, answers)
  {
    forall i | 0 <= i < |answers|
      ensures i !in r && i !in w && i !in e ==> answers[i] == {}
      ensures PollIn in answers[i] ==> i in r
      ensures PollOut in answers[i] ==> i in w
      ensures PollPri in answers[i] ==> i in e
    {
      assert MayAnswer(Request(r, w, e, i), answers[i]);
      assert PollIn in answers[i] ==> PollIn in Request(r, w, e, i).events;
      assert PollOut in answers[i] ==> PollOut in Request(r, w, e, i).events;
      assert PollPri in answers[i] ==> PollPri in Request(r, w, e, i).events;
    }
  }

  /** Leaves in each set the descriptors whose answer matches it, and counts those with any answer; an error
      leaves the sets alone. Where two sets are one object, the one written last stays. No array
      of negative length can be allocated. */
  method SysPselect(nfds: int, readSet: FdSet?, writeSet: FdSet?, exceptSet: FdSet?)
      returns (ret: int, numEvents: nat, ghost answers: seq<set<Flag>>)
    requires nfds <= FD_SETSIZE
    modifies readSet, writeSet, exceptSet
    ensures nfds < 0 ==> ret == ENOMEM
    ensures ret != 0 ==> FdsOf(readSet) == old(FdsOf(readSet)) && FdsOf(writeSet) == old(FdsOf(writeSet))
                         && FdsOf(exceptSet) == old(FdsOf(exceptSet))
    ensures ret == 0 ==>
              && |answers| == nfds
              && MayAnswerAll(old(FdsOf(readSet)), old(FdsOf(writeSet)), old(FdsOf(exceptSet)), answers)
              && numEvents == |Answering(answers)|
              && (readSet != writeSet && readSet != exceptSet ==>
                    FdsOf(readSet) == Selected(old(FdsOf(readSet)), answers, READ_BITS))
              && (writeSet != exceptSet ==>
                    FdsOf(writeSet) == Selected(old(FdsOf(writeSet)), answers, WRITE_BITS))
              && FdsOf(exceptSet) == Selected(old(FdsOf(exceptSet)), answers, EXCEPT_BITS)
    ensures ret == 0 && (readSet == null || (readSet != writeSet && readSet != exceptSet))
            && (writeSet == null || writeSet != exceptSet) ==>
              KeptByFlags(old(FdsOf(readSet)), old(FdsOf(writeSet)), old(FdsOf(exceptSet)), answers,
                          FdsOf(readSet), FdsOf(writeSet), FdsOf(exceptSet))
    ensures ret == 0 ==> AnswersByFlags(old(FdsOf(readSet)), old(FdsOf(writeSet)), old(FdsOf(exceptSet)), answers)
    ensures ret == 0 ==> numEvents == |set i | 0 <= i < |answers| && answers[i] != {}|
  {
    hide Selected, Request;
    answers, numEvents := [], 0;
    var noMemory: bool := *;
    if nfds < 0 || noMemory {
      return ENOMEM, 0, [];
    }
    var fds := BuildRequests(nfds, readSet, writeSet, exceptSet);
    ghost var requests := fds[..];
    ret, numEvents := SysPpoll(fds);
    if ret != 0 {
      return;
    }
    answers := Answers(fds[..]);
    AnswersFit(requests, fds[..]);
    var resRead, resWrite, resExcept := CollectResults(fds, readSet, writeSet, exceptSet);
    if readSet != null {
      readSet.fds := resRead;
    }
    if writeSet != null {
      writeSet.fds := resWrite;
    }
    if exceptSet != null {
      exceptSet.fds := resExcept;
    }
    SelectedFromNone(answers);
    SelectedByFlags(old(FdsOf(readSet)), old(FdsOf(writeSet)), old(FdsOf(exceptSet)), answers);
    FlagsOfAnswers(old(FdsOf(readSet)), old(FdsOf(writeSet)), old(FdsOf(exceptSet)), answers);
  }

  lemma AnswersFit(requests: seq<PollFd>, fds: seq<PollFd>)
    requires |requests| == |fds|
    requires forall i :: 0 <= i < |fds| ==> fds[i].fd == requests[i].fd && fds[i].events == requests[i].events
    requires forall i :: 0 <= i < |fds| ==> MayAnswer(fds[i], fds[i].revents)
    ensures Reporting(fds) == Answering(Answers(fds))
    ensures forall i :: 0 <= i < |fds| ==> MayAnswer(requests[i], Answers(fds)[i])
  {
  }

  lemma SelectedFromNone(answers: seq<set<Flag>>)
    ensures Selected({}, answers, READ_BITS) == {} && Selected({}, answers, WRITE_BITS) == {}
    ensures Selected({}, answers, EXCEPT_BITS) == {}
  {
  }

  // ----- what the count says about the sets -----

  /** The descriptors in some result. */
  ghost function Reported(r: set<int>, w: set<int>, e: set<int>, answers: seq<set<Flag>>): set<int> {
    Selected(r, answers, READ_BITS) + Selected(w, answers, WRITE_BITS) + Selected(e, answers, EXCEPT_BITS)
  }

  /** The answer to a descriptor matches nothing it was wanted for: a bad descriptor, or an error or hang-up on
      one wanted for exceptions only. */
  ghost predicate Unmatched(r: set<int>, w: set<int>, e: set<int>, answers: seq<set<Flag>>, i: int)
    requires 0 <= i < |answers|
  {
    && answers[i] != {}
    && !(i in e && PollPri in answers[i])
    && (if i in r || i in w then answers[i] <= {PollNval} else answers[i] <= {PollErr, PollHup, PollNval})
  }

  /** No more descriptors are reported than counted, and fewer exactly when some answer matches nothing. */
  lemma CountBoundsReported(r: set<int>, w: set<int>, e: set<int>, answers: seq<set<Flag>>)
    requires MayAnswerAll(r, w, e, answers)
    ensures Reported(r, w, e, answers) <= Answering(answers)
    ensures |Reported(r, w, e, answers)| <= |Answering(answers)|
    ensures |Reported(r, w, e, answers)| < |Answering(answers)| <==>
              exists i :: 0 <= i < |answers| && Unmatched(r, w, e, answers, i)
  {
    var rep, ans := Reported(r, w, e, answers), Answering(answers);
    forall i | 0 <= i < |answers|
      ensures i in ans && i !in rep <==> Unmatched(r, w, e, answers, i)
    {
      MissedIsUnmatched(r, w, e, answers, i);
    }
    SubsetSize(rep, ans);
    if rep != ans {
      var i :| i in ans && i !in rep;
      assert Unmatched(r, w, e, answers, i);
    }
  }

  lemma MissedIsUnmatched(r: set<int>, w: set<int>, e: set<int>, answers: seq<set<Flag>>, i: nat)
    requires MayAnswerAll(r, w, e, answers) && i < |answers|
    ensures i in Answering(answers) && i !in Reported(r, w, e, answers) <==> Unmatched(r, w, e, answers, i)
  {
    var a := answers[i];
    assert MayAnswer(Request(r, w, e, i), a);
    assert a * READ_BITS != {} <==> PollIn in a || PollErr in a || PollHup in a by { SomeOf(a, PollIn, PollErr, PollHup); }
    assert a * WRITE_BITS != {} <==> PollOut in a || PollErr in a || PollHup in a by {
      SomeOf(a, PollOut, PollErr, PollHup);
    }
    assert a * EXCEPT_BITS != {} <==> PollPri in a by { SomeOf(a, PollPri, PollPri, PollPri); }
  }

  lemma SomeOf(a: set<Flag>, x: Flag, y: Flag, z: Flag)
    ensures a * {x, y, z} != {} <==> x in a || y in a || z in a
    ensures a * {x} != {} <==> x in a
  {
    assert x in a ==> x in a * {x, y, z} && x in a * {x};
    assert y in a ==> y in a * {x, y, z};
    assert z in a ==> z in a * {x, y, z};
  }
}
