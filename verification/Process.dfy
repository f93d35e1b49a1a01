/**
 What the schedulers share.
 */
module Process {
  datatype ProcState = Unused | Sleeping | Runnable | Running | Zombie
}
