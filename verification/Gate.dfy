/** The request recorder's admission gate: the state its lock protects, one pure transition per
    critical section, and the object whose methods make those transitions. */
module Gate {

  datatype Target = KafkaTarget | QueueTarget

  /** `spooling` is the failure barrier: while it stands new batches may only enter the disk queue.
      The counters are the admitted writes that have not finished. */
  datatype Gate = Gate(spooling: bool, kafkaWrites: int, queueWrites: int,
                       replayPaused: bool, kafkaOK: bool, queueOK: bool)
  {
    static function Initial(hasPending: bool): Gate {
      Gate(hasPending, 0, 0, false, false, true)
    }

    function Choose(compliant: bool): Target {
      if spooling || !compliant then QueueTarget else KafkaTarget
    }

    function Reserve(compliant: bool): Gate {
      if Choose(compliant).QueueTarget? then this.(spooling := true, queueWrites := queueWrites + 1)
      else this.(kafkaWrites := kafkaWrites + 1)
    }

    function CompleteKafka(): Gate {
      this.(kafkaWrites := kafkaWrites - 1, kafkaOK := kafkaOK || !spooling)
    }

    function FailKafka(): Gate {
      this.(kafkaWrites := kafkaWrites - 1, kafkaOK := false, spooling := true, queueWrites := queueWrites + 1)
    }

    function FinishQueue(available: bool): Gate {
      this.(queueWrites := queueWrites - 1, queueOK := available)
    }

    function ReplayFailed(permanent: bool): Gate {
      this.(kafkaOK := false, spooling := true, replayPaused := replayPaused || permanent)
    }

    predicate CanResume(compliant: bool, queueEmpty: bool) {
      spooling && compliant && kafkaWrites <= 0 && queueWrites <= 0 && !replayPaused && queueEmpty
    }

    function Resume(compliant: bool, queueEmpty: bool): Gate {
      if CanResume(compliant, queueEmpty) then this.(spooling := false) else this
    }
  }

  class RecorderState {
    var spooling: bool
    var kafkaWrites: int
    var queueWrites: int
    var replayPaused: bool
    var kafkaOK: bool
    var queueOK: bool

    function Value(): Gate
      reads this
    {
      Gate(spooling, kafkaWrites, queueWrites, replayPaused, kafkaOK, queueOK)
    }

    constructor (hasPending: bool)
      ensures Value() == Gate.Initial(hasPending)
    {
      spooling, kafkaWrites, queueWrites := hasPending, 0, 0;
      replayPaused, kafkaOK, queueOK := false, false, true;
    }

    method ReserveWriteTarget(topicCompliant: bool) returns (t: Target)
      modifies this
      ensures t == old(Value()).Choose(topicCompliant)
      ensures Value() == old(Value()).Reserve(topicCompliant)
    {
      if spooling || !topicCompliant {
        spooling := true;
        queueWrites := queueWrites + 1;
        return QueueTarget;
      }
      kafkaWrites := kafkaWrites + 1;
      return KafkaTarget;
    }

    method CompleteKafkaWrite()
      modifies this
      ensures Value() == old(Value()).CompleteKafka()
    {
      kafkaWrites := kafkaWrites - 1;
      if !spooling {
        kafkaOK := true;
      }
    }

    /** Reports whether this failure put the barrier up. */
    method FailKafkaWrite() returns (switched: bool)
      modifies this
      ensures switched <==> !old(spooling)
      ensures Value() == old(Value()).FailKafka()
    {
      kafkaWrites := kafkaWrites - 1;
      kafkaOK := false;
      switched := !spooling;
      spooling := true;
      queueWrites := queueWrites + 1;
    }

    method FinishQueueWrite(available: bool) returns (changed: bool)
      modifies this
      ensures changed <==> old(queueOK) != available
      ensures Value() == old(Value()).FinishQueue(available)
    {
      queueWrites := queueWrites - 1;
      changed := queueOK != available;
      queueOK := available;
    }

    method ReplaySucceeded()
      modifies this
      ensures Value() == old(Value()).(kafkaOK := true)
    {
      kafkaOK := true;
    }

    method ReplayFailed(permanent: bool)
      modifies this
      ensures Value() == old(Value()).ReplayFailed(permanent)
    {
      kafkaOK := false;
      spooling := true;
      replayPaused := replayPaused || permanent;
    }

    method SetQueueOK(ok: bool)
      modifies this
      ensures Value() == old(Value()).(queueOK := ok)
    {
      queueOK := ok;
    }

    method StartSpooling()
      modifies this
      ensures Value() == old(Value()).(spooling := true)
    {
      spooling := true;
    }

    method ResumeKafkaWrites(topicCompliant: bool, queueEmpty: bool) returns (resumed: bool)
      modifies this
      ensures resumed <==> old(Value()).CanResume(topicCompliant, queueEmpty)
      ensures Value() == old(Value()).Resume(topicCompliant, queueEmpty)
    {
      if !spooling || !topicCompliant || kafkaWrites > 0 || queueWrites > 0 || replayPaused || !queueEmpty {
        return false;
      }
      spooling := false;
      return true;
    }
  }
}
