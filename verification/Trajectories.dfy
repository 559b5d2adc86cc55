/** The messages the queue moves around. */
module Trajectories {
  import opened Prelude

  /** `body` stands for the fields nothing here looks at: messages, reward, extra info. */
  datatype Trajectory = Trajectory(uid: string, instanceId: string, body: seq<byte>)

  datatype Group = Group(instanceId: string, trajectories: seq<Trajectory>, groupSize: int, complete: bool)
}
